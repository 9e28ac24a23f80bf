# Fan controller with SDA5708 display — a Dafny model

This project models the firmware of a small Arduino fan controller. The
controller samples up to two DS18-family temperature probes and takes the
hottest reading. It turns that reading into a PWM duty cycle for the fan
through a hysteresis band, with a failsafe: any probe that does not answer
drives the fan at full speed. The resulting percentage is drawn as an
eight-cell bar on an SDA5708 eight-digit dot-matrix display. The display
driver is modelled too: the command bytes it builds, the bit-serial wire
protocol it drives, the glyph rows it reads from its font table, and how it
lays text out over the eight digits.

Files (one module each):

- `seq_facts.dfy` (`SeqFacts`): general facts about sequences used by the
  proofs.
- `arduino.dfy` (`Arduino`): C's truncating integer division, Arduino's `min`,
  and the Arduino core's `map` function with its monotonicity and range lemmas.
- `sda5708_wire.dfy` (`Sda5708Wire`): pin events and the frame of one byte
  (LOAD low, eight LSB-first data bits each with a clock pulse, LOAD high). It
  also holds a reference receiver that reads a pin trace the way the display
  does. The lemmas show that the frames of any bytes are received as exactly
  those bytes.
- `sda5708.dfy` (`Sda5708`): command bytes and a command decoder, character
  sanitising, glyph rows, C-string text, and cursor layout. It also holds the
  class `Display`, whose methods append their pin effects to a `trace`.
- `fan_control.dfy` (`FanControl`): the sampling, the control law, the trend
  and the speed bar as specification functions with their lemmas. It also
  holds the class `Controller`, which keeps the firmware's globals and whose
  methods are proved against those functions.

Modelling choices:

- Temperatures are integers in hundredths of a degree Celsius. The
  threshold 33.0 is `3300`, the hysteresis 5 is `500`, and the sentinel
  −127 is `-12700`. With these units, `currentMainTemp * 100` in the `map`
  call is exact.
- The trend uses `(int)(t * 10)`, which becomes `TruncDiv(t, 10)`.
- Bytes are `bv8`, so `print`'s `uint8_t` cursor wraps at 256, as in C.
- What each probe reports when sampled is an input, `probe[t]`: either
  `Unplugged` or `Reading(centi)`.
- The font table is a constructor parameter of `Display` (672 bytes).
- Pins are named by their role (LOAD, DATA, SDCLK, RESET).

Where the code and the project's documented behaviour differ, the model
follows the code:

- At exactly `threshold - hysteresis` the code's `>=` puts the fan in the
  band. The duty cycle there is 25, not 0, while the percentage is 0
  (`BandFloor`).
- The aggregate is a running maximum that starts at the sentinel and also
  takes in the sentinel of a probe that did not answer. `AggregateIgnoresUnplugged`
  proves that this equals the maximum of the sentinel and the connected
  readings.
- The default threshold is 33.0 °C, as in `src/main.cpp`.

## Model

| member | source | states |
|---|---|---|
| Arduino.TruncDivBounds | src/main.cpp:112 | C division truncates toward zero: `abs(q)·abs(b) <= abs(a) < (abs(q)+1)·abs(b)`, and the sign of `q` follows the signs of `a` and `b` |
| Arduino.TruncDivMonotone | src/main.cpp:112 | for a positive divisor, truncating division never decreases as the numerator grows |
| Arduino.Min | src/main.cpp:125 | `min(a, b)` is at most both arguments and equals one of them |
| Arduino.MapMonotone | src/main.cpp:123 | Arduino `map` over an increasing input range never decreases as its input grows |
| Arduino.MapEnds | src/main.cpp:123 | `map` sends `in_min` to `out_min` and `in_max` to `out_max` |
| Arduino.MapInRange | src/main.cpp:123 | an input inside the input range maps inside the output range; an input at or past the top maps at or past `out_max` |
| FanControl.Visited | src/main.cpp:90 | the loop visits `min(sensorsCount, MAX_SENSORS_COUNT)` probes, never more than 2 and never more than there are |
| FanControl.StoredValues | src/main.cpp:94-100 | slot `t` holds the probe's reading, or the sentinel −127 when the probe is not connected |
| FanControl.ErrorIndex | src/main.cpp:88-96 | `tempErrorIdx` is 0 exactly when every visited probe is connected; otherwise probe `tempErrorIdx - 1` is disconnected and every later one is connected |
| FanControl.MainTemp | src/main.cpp:89-103 | the running maximum is at least −127 and at least every stored value, and it is −127 or one of them |
| FanControl.AggregateIgnoresUnplugged | src/main.cpp:89-103 | the maximum over stored values equals the maximum over connected readings (with −127 as floor): a dead probe never raises the main temperature |
| FanControl.Controller.ReadTemperatures | src/main.cpp:86-104 | visited slots hold the stored values, later slots are unchanged, `tempErrorIdx` is `ErrorIndex`, and `currentMainTemp` is `MainTemp` of the visited slots |
| FanControl.BandDuty | src/main.cpp:123-125 | the duty cycle in or above the band lies in [25, 255] and is 255 at or above the threshold |
| FanControl.DutyPercent | src/main.cpp:126 | the percentage lies in [0, 100], is 0 at duty 25 and 100 at duty 255 |
| FanControl.FanSpeed | src/main.cpp:115-127 | failsafe: any probe error gives 255 and 100 % whatever the temperature; below the band gives 0 and 0 %; in the band the duty is in [25, 255] and the percentage in [0, 100]; at or above the threshold 255 and 100 %; the fan stops exactly when there is no error and the temperature is below the band |
| FanControl.DutyMonotone | src/main.cpp:121-126 | with no error, a hotter reading never gets a lower duty cycle or percentage |
| FanControl.BandFloor | src/main.cpp:121-126 | at `threshold - hysteresis` the fan runs at duty 25 and the percentage shown is 0 |
| FanControl.DefaultBand | src/main.cpp:29-30 | with threshold 33.0 and hysteresis 5: 27.99 gives 0/0, 28.00 gives 25/0, 30.50 gives 140/50, 35.00 gives 255/100 |
| FanControl.Trend | src/main.cpp:112 | equal temperatures give a trend of 0 |
| FanControl.TrendSign | src/main.cpp:112 | warming gives a trend of 0 or more, cooling gives 0 or less |
| FanControl.Controller.AdjustFanSpeed | src/main.cpp:109-135 | the trend is `Trend(current, last)`, `lastMainTemp` becomes `currentMainTemp`, the PWM output is `FanSpeed(...).duty`, and the display receives the speed bar for `FanSpeed(...).percent` |
| FanControl.SpeedBar | src/main.cpp:139-149 | for a percentage in [0, 100], `bars = percent*7/100` lies in [0, 7]; cell `i` is lit (31) exactly when `i >= 7 - bars`; exactly `bars + 1` cells are lit; the first byte selects digit 7 and every cell byte is read as pixels |
| FanControl.Controller.PrintSpeedBar | src/main.cpp:137-150 | the display trace grows by the frames of the digit-7 address followed by the eight cells of `BarCells(percent)` |
| Sda5708Wire.AssembleBits | lib/SDA5708/SDA5708.h:36-42 | reassembling the eight bits `(b >> x) & 1`, sent least significant first, gives back `b` |
| Sda5708Wire.FrameLatches | lib/SDA5708/SDA5708.h:30-49 | from any receiver state, the frame of a byte is received as exactly that byte, and the receiver is left idle |
| Sda5708Wire.FramesLatch | lib/SDA5708/SDA5708.h:30-49 | the frames of a sequence of bytes are received as exactly that sequence |
| Sda5708Wire.SendFrames | lib/SDA5708/SDA5708.h:30-49 | appending the frames of `bs` to any trace adds exactly `Latched(bs[i])` to what the display has received |
| Sda5708.BrightnessCommand | lib/SDA5708/SDA5708.h:25-28 | the brightness byte decodes as `SetBrightness(val & 7)`, and as `SetBrightness(val)` when `val <= 7` |
| Sda5708.CursorCommand | lib/SDA5708/SDA5708.h:62-66 | the address byte decodes as `SelectDigit(c')`, where `c' = c` if `c <= 7` and 0 otherwise; its low three bits equal `c'` |
| Sda5708.Printable | lib/SDA5708/SDA5708.h:54 | the character drawn lies in 0x20..0x7F and is the given one when it is already in range |
| Sda5708.GlyphIndex | lib/SDA5708/SDA5708.h:58 | the font index `(sign - 0x20) * 7 + i` stays inside the 96×7 table |
| Sda5708.GlyphRow | lib/SDA5708/SDA5708.h:58 | a row byte (font byte / 8) is below 32 |
| Sda5708.DigitDecodes | lib/SDA5708/SDA5708.h:51-59 | `digit` sends exactly eight bytes: the clamped digit address, then the seven font rows of the sanitised character, each read as pixels |
| Sda5708.UnprintableIsSpace | lib/SDA5708/SDA5708.h:54 | a character outside 0x20..0x7F is drawn exactly as a space |
| Sda5708.CString | lib/SDA5708/SDA5708.h:72 | the text is the prefix before the first NUL, it contains no NUL, and it is followed by one unless the buffer ends |
| Sda5708.TextBytes | lib/SDA5708/SDA5708.h:68-88 | a text of `n` characters is sent as exactly `8 * n` bytes |
| Sda5708.AdvanceWraps | lib/SDA5708/SDA5708.h:74 | `k` increments of the `uint8_t` cursor count modulo 256 |
| Sda5708.TextLayout | lib/SDA5708/SDA5708.h:68-88 | character `k` is sent as the eight bytes of `digit` at cursor `c + k` (mod 256), so its address selects that digit, clamped to 0 past 7 |
| Sda5708.PrintPositions | lib/SDA5708/SDA5708.h:68-77 | `print` puts character `k` at digit `k` for `k < 8`, and characters 8..255 at digit 0 |
| Sda5708.ResetSequenceResets | lib/SDA5708/SDA5708.h:18-23 | from an idle receiver, the pin effects of `begin` are received as one chip reset |
| Sda5708.PinSetupIsQuiet | lib/SDA5708/SDA5708.h:10-16 | configuring the four lines as outputs sends nothing to the display |
| Sda5708.Display.constructor | lib/SDA5708/SDA5708.h:10-16 | the pins and font are stored and the trace is the four output configurations |
| Sda5708.Display.Begin | lib/SDA5708/SDA5708.h:18-23 | the trace grows by LOAD high, RESET low, RESET high |
| Sda5708.Display.Clear | lib/SDA5708/SDA5708.h:90-93 | `clear` has exactly the pin effects of `begin` |
| Sda5708.Display.SendByte | lib/SDA5708/SDA5708.h:30-49 | the trace grows by the frame of the byte: LOAD low, DATA = bit `x` then SDCLK high and low for `x` = 0..7, LOAD high |
| Sda5708.Display.Brightness | lib/SDA5708/SDA5708.h:25-28 | the trace grows by the frame of one byte, `0xE0` OR `(val & 7)` |
| Sda5708.Display.SetCursor | lib/SDA5708/SDA5708.h:62-66 | the trace grows by the frame of the clamped address byte |
| Sda5708.Display.Digit | lib/SDA5708/SDA5708.h:51-59 | the trace grows by the frames of `DigitBytes(sign, digit)`: the address, then the seven rows |
| Sda5708.Display.Print | lib/SDA5708/SDA5708.h:68-77 | the trace grows by the frames of the text up to its NUL, laid out from cursor 0 |
| Sda5708.Display.PrintAt | lib/SDA5708/SDA5708.h:79-88 | the trace grows by the frames of the text up to its NUL, laid out from the clamped start cursor |

## Left out

- `setup()` and `loop()` are not modelled: the splash-screen texts, delays, the `Ticker` scheduling, the watchdog and the Modbus server set-up are hardware and timing, with no register logic in the code.
- `printMainTemperature` is not modelled: its `sprintf` formatting works on floats. So `AdjustFanSpeed`'s display trace holds only the speed bar.
- The empty `drawArrowUp` and `drawArrowDown` are not modelled.
- The sensor library calls are not modelled (`getAddress`, `isConnected`, `getTempC`, `requestTemperatures`). What the probes report is the `probe` input of `ReadTemperatures`.
- The `Serial.println` output is not modelled.
- `analogWrite` is recorded as the `pwmDuty` field.
- Floating point is not modelled: temperatures are exact hundredths of a degree. Float rounding in `currentMainTemp * 100`, in the comparison with the band, and in `(int)(t * 10)` is not captured.
- Arduino.Map: computes on unbounded integers. The 32-bit `long` overflow of `(x - in_min) * (out_max - out_min)` is not modelled, because it needs temperatures beyond ±9000 °C.
- FanControl.FanSpeed: requires `hysteresis > 0`, because `map` divides by the hysteresis. The firmware's hysteresis is the constant 5.
- Sda5708.Display: the trace names lines by role, not by pin number. The electrical effect of `pinMode` and `digitalWrite` is not modelled.
- Sda5708.Display: the font table's contents (`font.h`) are a parameter, and the PROGMEM read is an ordinary sequence index.
- Sda5708.Display.Print: the text is a byte sequence. A `char` of 0x80 or above is read as its `uint8_t` value, so it is drawn as a space.
- The speed bar sends eight row bytes after the digit-7 address, while a glyph has seven rows. The reference receiver models latching, not how the display uses an eighth row, so nothing is claimed about it.
