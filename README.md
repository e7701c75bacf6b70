# Dragino TrackerD uplink decoder, modelled in Dafny

This project models the ChirpStack payload codec for the Dragino TrackerD
LoRa tracker. The codec turns the bytes of an uplink into an object whose
properties depend on the LoRaWAN FPort:

- FPorts 2 and 3 carry position, battery and status, and optionally a
  timestamp or (on FPort 2 only) humidity and temperature.
- FPort 4 carries position and timestamp.
- FPort 5 carries device information.
- FPort 6 carries an iBeacon report.
- FPort 7 is a short status message.
- FPort 8 carries a Wi-Fi SSID.
- FPort 10 carries three MAC addresses.
- Any other port yields `{ error: "Unknown fPort" }`.

The source is a single JavaScript file of pure functions. The model is
therefore datatypes, functions and lemmas, in six modules:

- `JsInt32`: the JavaScript operators `<<`, `>>`, `&` and `|`. Both operands
  pass through ToInt32 and the operation works on the 32-bit
  two's-complement pattern. AND and OR are defined bit by bit, and lemmas
  give their value for masks and for operands with disjoint bits.
- `Layout`: the arithmetic meaning of each field: big-endian unsigned and
  signed words, single bits, the 14-bit battery voltage, and the encoders
  that invert them.
- `Fields`: every bit expression of the decoder, written with the `JsInt32`
  operators exactly as the source combines them. Each one is proved equal
  to its `Layout` meaning.
- `JsText`: `Number.prototype.toString(radix)` on non-negative integers,
  `padStart`, and `String.fromCharCode` on bytes.
- `Helpers`: `bytesToHex`, `formatDateTime` and `calculateBatteryLevel`.
  The last is computed exactly over `real`, with `Math.round` as
  `floor(x + 1/2)`.
- `TrackerD`: the seven decoders and the `decode` dispatcher.

A decoded object is a value of `TrackerD.Uplink`, with one constructor per
object shape and one field per property. `PropertyNames` lists the
object's keys in the order the source creates them. The source divides some
quantities by powers of ten; these are kept exactly as `Fixed(raw, divisor)`:

- latitude and longitude in millionths of a degree;
- battery voltage in millivolts;
- humidity and temperature in tenths.

Behaviour of the code that the model keeps as it is:

- On FPorts 2/3, `Mode` is `bytes[10] & 0xC0` left unshifted (0, 64, 128 or
  192). FPorts 6, 7, 8 and 10 shift it down to 0..3.
- On FPorts 2/3, `Date` holds the whole `{date, time}` object. FPort 4 has
  separate `Date` and `Time` strings.
- `POWER` of the beacon report is `bytes[15]`, the last byte of the UUID.
- On FPort 5 the battery word is the full 16 bits `(b5 << 8) | b6`, with no
  mask and no alarm flag. The other ports mask it to 14 bits.
- On FPort 7, `[0x0C, 0x80, 0x40]` gives 3200 mV and 33 %
  (`SimpleStatusExample`).
- No decoder checks the length of its input.

## Model

| member | source | states |
|---|---|---|
| JsInt32.ToInt32 | ChirpstackPayloadDraginoTrackerD.js:71 | the int32 that the bitwise operators produce is congruent to its argument modulo 2^32, and equal to it when the argument is already in the int32 range |
| JsInt32.BitAndLowMask | ChirpstackPayloadDraginoTrackerD.js:73 | AND with the mask of k low one-bits (for example `& 0x3F`) keeps the value modulo 2^k |
| JsInt32.BitAndShiftedMask | ChirpstackPayloadDraginoTrackerD.js:77 | AND with a mask m shifted up by j bits (for example `& 0xC0`) equals 2^j times the AND of m with x shifted down by j bits |
| JsInt32.BitOrDisjoint | ChirpstackPayloadDraginoTrackerD.js:71 | OR of a multiple of 2^k with a value below 2^k is their sum |
| JsInt32.AndLowMask | ChirpstackPayloadDraginoTrackerD.js:129 | on a non-negative int32, `a & (2^k - 1)` is `a mod 2^k` |
| JsInt32.AndShiftedMask | ChirpstackPayloadDraginoTrackerD.js:76 | on a non-negative int32, `a & (m * 2^j)` is 2^j times the AND of m with `a div 2^j` |
| JsInt32.AndNonneg | ChirpstackPayloadDraginoTrackerD.js:76 | for non-negative int32 operands, `&` is the AND of their bit patterns |
| JsInt32.OrDisjoint | ChirpstackPayloadDraginoTrackerD.js:71 | `a \| y` is ToInt32 of the sum when the bits of a lie above bit k and y lies below 2^k |
| JsInt32.SarBy | ChirpstackPayloadDraginoTrackerD.js:80 | `a >> k` never wraps around: it is exactly a divided by 2^k, rounding down |
| Layout.BatteryMillivoltsRange | ChirpstackPayloadDraginoTrackerD.js:73 | the masked battery word lies in 0..16383 millivolts |
| Layout.TopTwoBitsRange | ChirpstackPayloadDraginoTrackerD.js:157 | bits 7..6 of a byte form a number 0..3 |
| Layout.Int8Range | ChirpstackPayloadDraginoTrackerD.js:151 | a signed byte lies in -128..127 and is negative exactly when bit 7 is set |
| Layout.Int16Range | ChirpstackPayloadDraginoTrackerD.js:102 | a signed 16-bit value lies in -32768..32767 and is negative exactly when the high byte has bit 7 set |
| Layout.Int32Range | ChirpstackPayloadDraginoTrackerD.js:71 | a signed 32-bit value lies in the int32 range and is negative exactly when the first byte has bit 7 set |
| Layout.BatteryRoundTrip | ChirpstackPayloadDraginoTrackerD.js:73-76 | encoding a voltage below 16384 mV with an alarm flag and decoding it gives back both |
| Layout.BatteryReencode | ChirpstackPayloadDraginoTrackerD.js:73-76 | re-encoding a decoded voltage and alarm reproduces bits 6..0 of the high byte and the whole low byte |
| Layout.BatteryIgnoresUpperBits | ChirpstackPayloadDraginoTrackerD.js:73 | the voltage does not depend on bits 7 and 6 of the high byte |
| Layout.EncodeInt32BE | ChirpstackPayloadDraginoTrackerD.js:71 | an int32 is sent as four bytes |
| Layout.Int32RoundTrip | ChirpstackPayloadDraginoTrackerD.js:71-72 | decoding the four bytes of an encoded int32 gives it back |
| Layout.Int32Reencode | ChirpstackPayloadDraginoTrackerD.js:71-72 | re-encoding a decoded coordinate gives back its four bytes |
| Layout.Int16RoundTrip | ChirpstackPayloadDraginoTrackerD.js:102 | decoding an encoded signed 16-bit value gives it back |
| Layout.Int8RoundTrip | ChirpstackPayloadDraginoTrackerD.js:151 | reading back a signed byte gives its value |
| Fields.ShlTop | ChirpstackPayloadDraginoTrackerD.js:71 | `b << 24` has the pattern b times 2^24 and the value of the signed byte times 2^24 |
| Fields.Int32Word | ChirpstackPayloadDraginoTrackerD.js:71-72 | `(b0 << 24) \| (b1 << 16) \| (b2 << 8) \| b3` is the big-endian two's-complement int32 of the bytes |
| Fields.Int32WordCombines | ChirpstackPayloadDraginoTrackerD.js:71 | the OR chain of the coordinate equals the signed big-endian value |
| Fields.TopTwoBytes | ChirpstackPayloadDraginoTrackerD.js:71 | `(b0 << 24) \| (b1 << 16)` has the pattern (b0 * 256 + b1) * 2^16 |
| Fields.NextByte | ChirpstackPayloadDraginoTrackerD.js:71 | OR-ing `b2 << 8` below a two-byte pattern appends the byte |
| Fields.LastByte | ChirpstackPayloadDraginoTrackerD.js:71 | OR-ing the last byte gives the pattern read as two's complement |
| Fields.Uint16Word | ChirpstackPayloadDraginoTrackerD.js:148-149 | `(hi << 8) \| lo` is hi * 256 + lo |
| Fields.Uint16WordCombines | ChirpstackPayloadDraginoTrackerD.js:101 | the humidity, MAJOR and MINOR word equals hi * 256 + lo |
| Fields.Int16Word | ChirpstackPayloadDraginoTrackerD.js:102 | `((hi << 24) >> 16) \| lo` is the signed big-endian 16-bit value |
| Fields.Int16WordCombines | ChirpstackPayloadDraginoTrackerD.js:102 | the shifted high byte sign-extends and the OR adds the low byte |
| Fields.Int8Word | ChirpstackPayloadDraginoTrackerD.js:151-152 | `b << 24 >> 24` is the byte read as signed |
| Fields.Int8WordSignExtends | ChirpstackPayloadDraginoTrackerD.js:196 | the shift pair sign-extends bit 7 |
| Fields.MillivoltsWord | ChirpstackPayloadDraginoTrackerD.js:73 | `((hi & 0x3F) << 8) \| lo` is (hi mod 64) * 256 + lo |
| Fields.MillivoltsCombines | ChirpstackPayloadDraginoTrackerD.js:176 | the battery expression equals the 14-bit voltage |
| Fields.AndSingleBit | ChirpstackPayloadDraginoTrackerD.js:76 | `b & 2^k` is 2^k when bit k is set and 0 otherwise |
| Fields.AlarmFlag | ChirpstackPayloadDraginoTrackerD.js:76 | `(b & 0x40) ? true : false` is bit 6 |
| Fields.LedFlag | ChirpstackPayloadDraginoTrackerD.js:78 | the test of `b & 0x20` is bit 5 |
| Fields.MovementFlag | ChirpstackPayloadDraginoTrackerD.js:79 | the test of `b & 0x10` is bit 4 |
| Fields.BackgroundBit | ChirpstackPayloadDraginoTrackerD.js:80 | `(b >> 3) & 0x01` is 1 when bit 3 is set and 0 otherwise |
| Fields.BackgroundBitExtracts | ChirpstackPayloadDraginoTrackerD.js:80 | the shifted and masked byte is `(b div 8) mod 2` |
| Fields.ModeInPlace | ChirpstackPayloadDraginoTrackerD.js:77 | `b & 0xC0` is 64 times bits 7..6 |
| Fields.TopTwoBitsMask | ChirpstackPayloadDraginoTrackerD.js:77 | the AND with 0xC0 keeps exactly bits 7 and 6 in place |
| Fields.ModeShifted | ChirpstackPayloadDraginoTrackerD.js:157 | `(b & 0xC0) >> 6` is bits 7..6 as a number |
| Fields.ModeShiftedExtracts | ChirpstackPayloadDraginoTrackerD.js:180 | shifting the masked byte down by 6 gives `b div 64` |
| Fields.LowNibbleWord | ChirpstackPayloadDraginoTrackerD.js:129 | `b & 0x0F` is `b mod 16` |
| Fields.HighNibbleWord | ChirpstackPayloadDraginoTrackerD.js:129 | `(b >> 4) & 0x0F` is `b div 16` |
| Fields.HighNibbleExtracts | ChirpstackPayloadDraginoTrackerD.js:129 | the shifted byte is below 16, so the mask keeps all of it |
| JsText.Digit | ChirpstackPayloadDraginoTrackerD.js:9 | the digit character of a value below 16 is a hexadecimal digit, and a decimal one below 10 |
| JsText.NatToString | ChirpstackPayloadDraginoTrackerD.js:248 | `n.toString(radix)` is a non-empty string of digits of the radix |
| JsText.ParseNatToString | ChirpstackPayloadDraginoTrackerD.js:248 | reading the digits of `n.toString(radix)` back gives n |
| JsText.NatToStringInjective | ChirpstackPayloadDraginoTrackerD.js:248 | distinct numbers render as distinct strings |
| JsText.NoLeadingZero | ChirpstackPayloadDraginoTrackerD.js:248 | a positive number renders without a leading zero |
| JsText.PadStart | ChirpstackPayloadDraginoTrackerD.js:9 | `s.padStart(width, fill)` has length max(\|s\|, width) |
| JsText.PadStartShape | ChirpstackPayloadDraginoTrackerD.js:248 | the padded string ends with s and is filled on the left |
| JsText.FromCharCodes | ChirpstackPayloadDraginoTrackerD.js:195 | `String.fromCharCode` gives one character per code, with that code |
| Helpers.HexByte | ChirpstackPayloadDraginoTrackerD.js:9 | `byte.toString(16).padStart(2, '0')` is the high and the low hexadecimal digit |
| Helpers.BytesToHex | ChirpstackPayloadDraginoTrackerD.js:8-10 | the hexadecimal string has two characters per byte |
| Helpers.HexIsLowerCase | ChirpstackPayloadDraginoTrackerD.js:8-10 | every character is a lower-case hexadecimal digit |
| Helpers.HexRoundTrip | ChirpstackPayloadDraginoTrackerD.js:8-10 | reading the digit pairs back gives the bytes |
| Helpers.HexInjective | ChirpstackPayloadDraginoTrackerD.js:8-10 | distinct byte sequences give distinct strings |
| Helpers.HexConcat | ChirpstackPayloadDraginoTrackerD.js:8-10 | the string of a concatenation is the concatenation of the strings |
| Helpers.HexCons | ChirpstackPayloadDraginoTrackerD.js:9 | a leading byte contributes its two digits in front |
| Helpers.HexByteExamples | ChirpstackPayloadDraginoTrackerD.js:9 | 0x00, 0xFF and 0x1A render as "00", "ff" and "1a" |
| Helpers.HexExample | ChirpstackPayloadDraginoTrackerD.js:8-10 | [0x00, 0xFF, 0x1A] renders as "00ff1a" |
| Helpers.Pad2 | ChirpstackPayloadDraginoTrackerD.js:248-249 | values below 100 render as exactly two decimal digits, and larger ones unpadded |
| Helpers.Pad2Reads | ChirpstackPayloadDraginoTrackerD.js:248-249 | a two-digit field below 100 reads back as its value |
| Helpers.FormatDateTime | ChirpstackPayloadDraginoTrackerD.js:239-251 | the date is the 16-bit year, month and day joined by "-", and the time is hour, minute and second joined by ":" |
| Helpers.TimeReadsBack | ChirpstackPayloadDraginoTrackerD.js:249 | with fields below 100 the time is HH:MM:SS and each field reads back |
| Helpers.DateReadsBack | ChirpstackPayloadDraginoTrackerD.js:248 | with month and day below 100 the date reads back as year, month and day |
| Helpers.NoCalendarValidation | ChirpstackPayloadDraginoTrackerD.js:239-251 | month 13, day 32, hour 25 and minute 61 pass through unchecked |
| Helpers.YearExample | ChirpstackPayloadDraginoTrackerD.js:240 | 0x07 0xEA is the year 2026, rendered "2026" |
| Helpers.Round | ChirpstackPayloadDraginoTrackerD.js:262 | `Math.round` gives the integer within one half, with halves rounded up |
| Helpers.CalculateBatteryLevel | ChirpstackPayloadDraginoTrackerD.js:255-263 | the battery level lies in 0..100 |
| Helpers.BatteryLevelEmpty | ChirpstackPayloadDraginoTrackerD.js:260 | 2.8 V or less gives 0 |
| Helpers.BatteryLevelFull | ChirpstackPayloadDraginoTrackerD.js:258 | 4.002 V or more gives 100 |
| Helpers.BatteryLevelMonotone | ChirpstackPayloadDraginoTrackerD.js:256-262 | a higher voltage never gives a lower level |
| Helpers.BatteryLevelMidpoint | ChirpstackPayloadDraginoTrackerD.js:256-262 | 3.401 V gives 50 |
| Helpers.BatteryLevelOfMillivolts | ChirpstackPayloadDraginoTrackerD.js:255-263 | on mv / 1000 the level equals the integer formula `BatteryPercent(mv)` |
| TrackerD.BatteryLevel | ChirpstackPayloadDraginoTrackerD.js:74 | `calculateBatteryLevel(mv / 1000)` is `BatteryPercent(mv)`, in 0..100 |
| TrackerD.Coordinate | ChirpstackPayloadDraginoTrackerD.js:71-72 | a coordinate is the signed big-endian int32 of its four bytes over 10^6 |
| TrackerD.HasTimestamp | ChirpstackPayloadDraginoTrackerD.js:94 | the timestamp branch is taken exactly when bit 3 of byte 10 is set and there are at least 18 bytes |
| TrackerD.HasClimate | ChirpstackPayloadDraginoTrackerD.js:98 | the humidity and temperature branch is taken exactly on FPort 2 with at least 15 bytes when the timestamp branch is not, and never together with it |
| TrackerD.DecodeLocationAndStatus | ChirpstackPayloadDraginoTrackerD.js:70-106 | each field's meaning: coordinates, 14-bit battery, percentage and alarm, unshifted mode, LED, movement and background bit; Date exactly when the background bit is set and there are 18 bytes; otherwise Hum and Tem exactly on FPort 2 with 15 bytes |
| TrackerD.DecodeLocationWithTimestamp | ChirpstackPayloadDraginoTrackerD.js:110-121 | coordinates, then the date and time strings of bytes 8..14 as two separate properties |
| TrackerD.BandEntry | ChirpstackPayloadDraginoTrackerD.js:128 | `bands[i]` is defined exactly for i in 0..13 |
| TrackerD.FrequencyBand | ChirpstackPayloadDraginoTrackerD.js:126-128 | codes 1 to 14 name `bands[code - 1]` of the 14-entry table, and every other code is "Unknown" |
| TrackerD.FirmwareVersion | ChirpstackPayloadDraginoTrackerD.js:129 | the version is three decimal numbers joined by ".", and they read back as the low nibble of byte 1 and the high and low nibbles of byte 2 |
| TrackerD.DecodeDeviceInformation | ChirpstackPayloadDraginoTrackerD.js:125-142 | Sensor_Mode is "TrackerD" exactly when byte 0 is 0x13; the firmware version and band; Sub_Band is "NULL" exactly when byte 4 is 0xFF and otherwise the number; the unmasked 16-bit battery and its percentage |
| TrackerD.DecodeBeaconData | ChirpstackPayloadDraginoTrackerD.js:146-171 | UUID is the hex of bytes 0..15; MAJOR and MINOR are unsigned words; POWER is byte 15; both RSSIs are signed bytes; the battery fields; the shifted mode |
| TrackerD.DecodeSimpleStatus | ChirpstackPayloadDraginoTrackerD.js:175-190 | the battery fields of bytes 0 and 1, the shifted mode and the LED bit of byte 2 |
| TrackerD.DecodeWifiScan | ChirpstackPayloadDraginoTrackerD.js:194-213 | the SSID is six characters whose codes are bytes 0..5; signed RSSI; the battery fields; the shifted mode and LED bit of byte 9 |
| TrackerD.DecodeMacScan | ChirpstackPayloadDraginoTrackerD.js:217-231 | three MACs as the hex of their six bytes, each followed by a signed RSSI; the battery fields; the shifted mode |
| TrackerD.Decode | ChirpstackPayloadDraginoTrackerD.js:22-61 | the error object exactly for ports outside {2, 3, 4, 5, 6, 7, 8, 10}, and it reads "Unknown fPort"; each known port gives its own decoder applied to the bytes, with the port number passed on to the FPort 2/3 decoder |
| TrackerD.UnknownPortHasOnlyError | ChirpstackPayloadDraginoTrackerD.js:55-57 | for an unknown port the only property is `error`, with value "Unknown fPort" |
| TrackerD.KnownPortHasNoError | ChirpstackPayloadDraginoTrackerD.js:25-53 | no known port produces an `error` property |
| TrackerD.PropertyNames | ChirpstackPayloadDraginoTrackerD.js:22-231 | an object has an `error` property exactly when it is the unknown-port object |
| TrackerD.LocationNames | ChirpstackPayloadDraginoTrackerD.js:82-103 | an FPort 2/3 object has Date, Hum and Tem exactly when those fields are present |
| TrackerD.LocationTail | ChirpstackPayloadDraginoTrackerD.js:94-103 | Date is present iff bit 3 is set and there are 18 bytes; Hum is present iff Date is absent, the port is 2 and there are 15 bytes; Tem is present iff Hum is |
| TrackerD.ClimateRange | ChirpstackPayloadDraginoTrackerD.js:101-102 | humidity is an unsigned and temperature a signed 16-bit count of tenths |
| TrackerD.Port3HasNoClimate | ChirpstackPayloadDraginoTrackerD.js:98 | FPort 3 never carries humidity or temperature |
| TrackerD.LocationModeValues | ChirpstackPayloadDraginoTrackerD.js:77-80 | on FPorts 2/3 Mode is one of 0, 64, 128, 192 and Background_Mode is 0 or 1 |
| TrackerD.ModeInPlaceValues | ChirpstackPayloadDraginoTrackerD.js:77 | 64 times bits 7..6 is one of 0, 64, 128, 192 |
| TrackerD.ShiftedModeRange | ChirpstackPayloadDraginoTrackerD.js:146-231 | on FPorts 6, 7, 8 and 10 Mode lies in 0..3 |
| TrackerD.LedStatusIffBit5 | ChirpstackPayloadDraginoTrackerD.js:78-202 | LED_Status is "ON" iff bit 5 of the status byte is set, and "OFF" iff it is clear, on FPorts 2, 3, 7 and 8 |
| TrackerD.RssiRange | ChirpstackPayloadDraginoTrackerD.js:151-224 | every RSSI lies in -128..127 |
| TrackerD.SameBatteryPacking | ChirpstackPayloadDraginoTrackerD.js:73-228 | FPorts 2, 3, 6, 7, 8 and 10 decode the battery the same way, from bytes 8/9, 24/25, 0/1, 7/8 and 21/22 |
| TrackerD.BatteryFieldsRange | ChirpstackPayloadDraginoTrackerD.js:73-74 | a 14-bit battery voltage lies in 0..16383 mV with a percentage in 0..100 |
| TrackerD.BatteryRange | ChirpstackPayloadDraginoTrackerD.js:73-228 | every battery voltage is below 16384 mV, except on FPort 5 where it is below 65536 mV; every percentage lies in 0..100 |
| TrackerD.DeviceBatteryUnmasked | ChirpstackPayloadDraginoTrackerD.js:130 | on FPort 5 a high byte of 64 or more gives a voltage above 16383 mV, which the masked ports cannot report |
| TrackerD.BatteryPercentRange | ChirpstackPayloadDraginoTrackerD.js:257-262 | the integer percentage formula lies in 0..100 |
| TrackerD.BatteryReencodes | ChirpstackPayloadDraginoTrackerD.js:73-76 | the decoded voltage and alarm re-encode to the battery bytes, except bit 7 of the high byte |
| TrackerD.CoordinatesReencode | ChirpstackPayloadDraginoTrackerD.js:71-72 | on FPorts 2, 3 and 4 both coordinates re-encode to the bytes they were read from |
| TrackerD.BeaconUuid | ChirpstackPayloadDraginoTrackerD.js:147 | the UUID has 32 lower-case hexadecimal digits and reads back as bytes 0..15 |
| TrackerD.PowerIsLastUuidByte | ChirpstackPayloadDraginoTrackerD.js:147-150 | POWER repeats the last byte of the UUID |
| TrackerD.MacAddresses | ChirpstackPayloadDraginoTrackerD.js:219-223 | each MAC address has 12 lower-case hexadecimal digits and reads back as its six bytes (0..5, 7..12, 14..19) |
| TrackerD.SimpleStatusExample | ChirpstackPayloadDraginoTrackerD.js:175-190 | on FPort 7, [0x0C, 0x80, 0x40] decodes to 3.200 V, 33 %, no alarm, mode 1 and LED "OFF" |

## Left out

- `decodeUplink` (lines 14-18) only wraps the result of `decode` as `{ data: … }`. It is not modelled, and neither is the unused `variables` argument.
- Short messages are not modelled. Each decoder requires the length it reads (FPort 2/3: 11, 4: 15, 5: 7, 6: 27, 7: 3, 8: 10, 10: 24 bytes), and `Decode` requires `MinLength(fPort)`. On a shorter message the JavaScript reads `undefined`, which bitwise operators treat as 0 and `toString` rejects with an exception.
- Floating point is not modelled. The divisions by 1e6, 1000 and 10 are kept as exact fractions, and the formatting of the resulting numbers is left out.
- CalculateBatteryLevel: computed over exact rationals, not IEEE-754 doubles, so rounding differences of the double computation are not captured.
- Unicode: `String.fromCharCode` is modelled only for byte-sized codes, one character per code.
- Concurrency and I/O: none, since the codec is a pure function called by the network server.

## Notes on the model

- Record keys are the constructor's fields. `PropertyNames` gives the
  JavaScript key order, including the optional `Date`, `Hum` and `Tem`.
- A property whose type depends on the branch is a `Scalar`. `Sub_Band` is
  the string "NULL" or the number `bytes[4]`.
