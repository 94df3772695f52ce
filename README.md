# CO2Monitor core, modelled in Dafny

CO2Monitor is ESP32 firmware for a CO2 traffic light. A sensor model stores
the latest CO2, temperature, humidity, pressure and IAQ readings. It derives
a five-level status (UNDEFINED, GREEN, YELLOW, RED, DARK_RED) from them and
notifies a listener. Output peripherals render that state:

- a Neopixel strip, painted in the status colour, which blinks red/blue at DARK_RED;
- a 64x32 HUB75 matrix, which shows a smiley, up to four CO2 digits and a message.

The ESPHome variant of the firmware adds three pieces:

- a WS2812 light output that encodes a GRB colour as RMT pulse items;
- an SSD1306 display component that drives the LEDs and shows either the CO2 screen or a WiFi setup QR code;
- an "improv" component: a small state machine for BLE WiFi provisioning with a timeout.

A build script composes the firmware version string from git outputs.

The project has one module per source file, plus two shared ones (`CTypes`, `Arithmetic`):

| file | module | source |
|---|---|---|
| ctypes.dfy | `CTypes` | `uint8_t`, `uint16_t` and `float` as the firmware passes them on |
| traffic_light.dfy | `TrafficLight` | the status enum, its order, `max`, the thresholds |
| model.dfy | `SensorModel` | src/model.cpp |
| neopixel.dfy | `NeopixelStrip` | src/neopixel.cpp |
| hub75.dfy | `Hub75Panel` | src/hub75.cpp |
| ws2812.dfy | `Ws2812` | esphome/neopixel-idf.h |
| co2display.dfy | `DisplayComponent` | esphome/custom_components/co2display/co2display.h |
| co2improv.dfy | `ImprovComponent` | esphome/custom_components/co2improv/co2improv.h |
| gitrev.dfy | `GitRev` | gitrev.py |
| arith.dfy | `Arithmetic` | powers of two (`1 << k`) and helper facts on integer multiplication and division used by the proofs |

Objects whose fields the firmware updates are Dafny classes:

- `Model`, `Neopixel`, `Hub75`, `Co2Display` and `Co2Improv`.
- The Neopixel pixel buffer is a real `array`, and `fill` is a loop over it.
- `write_state` fills a fresh `array` of RMT items in two nested loops.
- The gitrev script builds the version with `+=` in a method.

Hardware and outside calls are recorded as logs with the contents of each entry:

- listener calls;
- frames shown;
- light calls performed;
- WiFi, BLE, improv and timer effects.

Clocks, the WiFi connection state, BLE presence and the configuration
thresholds are parameters.

## Model

| member | source | states |
|---|---|---|
| TrafficLight.Rank | src/hub75.cpp:51 | the enumerator value used to index the smiley and message bitmaps is below 5 and is 0 exactly for UNDEFINED |
| TrafficLight.Max | src/model.cpp:41 | `max` of two statuses is one of them and at least as severe as both |
| TrafficLight.MaxLeastUpperBound | src/model.cpp:41 | anything at least as severe as both statuses is at least as severe as their `max` |
| SensorModel.Co2Status | src/model.cpp:17-28 | a reading of 0 gives UNDEFINED and any other reading a defined status; the bands below yellow, below red, below dark red and at or above dark red, first match winning, as if-and-only-ifs |
| SensorModel.IaqStatus | src/model.cpp:29-40 | IAQ 0 is UNDEFINED, 1..50 GREEN, 51..100 YELLOW, 101..200 RED, above 200 DARK_RED, each as an if-and-only-if |
| SensorModel.CombinedStatus | src/model.cpp:41 | the stored status is one of the two sub-statuses and at least as severe as each |
| SensorModel.CombinedUndefinedIff | src/model.cpp:16-43 | the status is UNDEFINED exactly when both the CO2 reading and the IAQ are 0 |
| SensorModel.DarkRedCo2Dominates | src/model.cpp:17-41 | a CO2 reading at or above every threshold makes the device DARK_RED whatever the IAQ |
| SensorModel.ClimateMask | src/model.cpp:51 | the climate update mask holds M_CO2 exactly for a nonzero reading, always temperature and humidity, nothing else |
| SensorModel.EnvironmentMask | src/model.cpp:61 | the environment update mask holds M_IAQ exactly for a nonzero index, always temperature, humidity and pressure, nothing else |
| SensorModel.PmMask | src/model.cpp:68-70 | the intended particulate mask names exactly the five PM quantities |
| SensorModel.LogicalOr | src/model.cpp:69 | C's `a \|\| b \|\| ...` is 1 exactly when some operand is nonzero, else 0 |
| SensorModel.PmMaskAsWritten | src/model.cpp:69 | the mask passed as written is the integer 1 for any five single-bit flags |
| SensorModel.PmMaskAsWrittenKeepsAtMostOneFlag | src/model.cpp:69 | of five distinct single-bit flags, the as-written mask contains at most one |
| SensorModel.Pm1_0AsWritten | src/model.cpp:96-98 | `getPM1_0` as written returns the pm10 field |
| SensorModel.Pm1_0AsWrittenMisreads | src/model.cpp:96-98 | a sample with PM1.0 = 1 and PM10 = 2 is misreported |
| SensorModel.Model.constructor | src/model.cpp:4-12 | co2, pressure and iaq start at 0, temperature and humidity at NaN, status UNDEFINED, no listener call |
| SensorModel.Model.UpdateStatus | src/model.cpp:16-43 | the imperative chains store the combined status of the current co2 and iaq |
| SensorModel.Model.UpdateClimate | src/model.cpp:45-52 | sets co2, temperature and humidity; leaves pressure, iaq and the PM values alone; recomputes the status; reports the climate mask with the previous and the new status |
| SensorModel.Model.UpdateEnvironment | src/model.cpp:54-62 | sets temperature, humidity, pressure and iaq; leaves co2 alone; recomputes the status; reports the environment mask with the previous and the new status |
| SensorModel.Model.UpdateParticulates | src/model.cpp:68-70 | changes no reading and reports one particulate notification (with the corrected mask) |
| SensorModel.Model.GetPm1_0 | src/model.cpp:96-98 | the corrected getter returns the PM1.0 field |
| SensorModel.Pm1_0AsWrittenAgreesIff | src/model.cpp:96-98 | the getter as written is right exactly for samples whose PM1.0 equals their PM10 |
| SensorModel.GetPm1_0AgreesIff | src/model.cpp:96-98 | the corrected and the as-written getter agree on a model exactly when its PM1.0 and PM10 coincide |
| NeopixelStrip.Uniform | src/neopixel.cpp:33-38 | a strip of n pixels that all have the one colour |
| NeopixelStrip.Band | src/neopixel.cpp:41-49 | the strip's chain never yields UNDEFINED and gives GREEN, YELLOW, RED, DARK_RED on exactly the first-match bands |
| NeopixelStrip.BandAgreesWithModel | src/neopixel.cpp:41-49 | for every nonzero reading the strip's status equals the model's CO2 sub-status |
| NeopixelStrip.ZeroReadingIsClassified | src/neopixel.cpp:41-42 | a reading of 0, UNDEFINED for the model, is still classified by the strip (GREEN for a positive yellow threshold) |
| NeopixelStrip.StatusColor | src/neopixel.cpp:51-61 | green, yellow, red for RED and DARK_RED alike, off for UNDEFINED |
| NeopixelStrip.UpdateColorIsLit | src/neopixel.cpp:40-62 | after an update the strip is always lit in green, yellow or red |
| NeopixelStrip.Neopixel.constructor | src/neopixel.cpp:5-26 | brightness 20, status UNDEFINED, phase clear; the frames shown are off, red, yellow, green, off |
| NeopixelStrip.Neopixel.Fill | src/neopixel.cpp:33-38 | every pixel becomes the colour, and exactly that frame is shown once more |
| NeopixelStrip.Neopixel.Update | src/neopixel.cpp:40-62 | the status becomes the strip's band of the model's reading and the strip shows its colour |
| NeopixelStrip.Neopixel.Timer | src/neopixel.cpp:64-72 | the phase always flips; only at DARK_RED is a frame shown, red when the flipped phase is set and blue otherwise; at any other status pixels and frames are unchanged |
| Hub75Panel.DigitRows | src/hub75.cpp:56-70 | four 9s above 9999; nothing for 0; otherwise each of the four rows is drawn, with its decimal digit, exactly when the reading has that many digits, and nothing else is drawn |
| Hub75Panel.DigitRowsShowReading | src/hub75.cpp:61-70 | for 1..9999 the drawn digits, weighted by row, read back as the reading, the top digit is not 0, and rows go top to bottom |
| Hub75Panel.Hub75.constructor | src/hub75.cpp:14-35 | the panel starts blank at the configured brightness with the blink phase clear |
| Hub75Panel.Hub75.Update | src/hub75.cpp:45-73 | the smiley is redrawn only on a status change; the digit column always shows `DigitRows` of the reading and the message the new status |
| Hub75Panel.Hub75.Timer | src/hub75.cpp:75-83 | at DARK_RED the smiley is drawn or cleared by the phase, which flips; otherwise nothing changes |
| Ws2812.NsToTicks | esphome/neopixel-idf.h:23 | a duration becomes the whole number of 25 ns ticks it contains, rounded down |
| Ws2812.TimingConstants | esphome/neopixel-idf.h:19-27 | 25 ns per tick and 72 buffer items; T0H 12, T0L 38, T1H 36, T1L 14 ticks |
| Ws2812.PackGrb | esphome/neopixel-idf.h:74-77 | the packed word is below 2^24, and green, red and blue are its bytes 2, 1 and 0 |
| Ws2812.BitItem | esphome/neopixel-idf.h:84-86 | the item sent for a bit is read back as a one exactly when the bit is set |
| Ws2812.MaskItems | esphome/neopixel-idf.h:82-88 | the inner loop emits one item per remaining bit |
| Ws2812.LedItems | esphome/neopixel-idf.h:81-88 | one LED takes 24 items |
| Ws2812.LedItemsMsbFirst | esphome/neopixel-idf.h:81-87 | item k of an LED encodes bit 23 - k of the word: most significant bit first |
| Ws2812.Frame | esphome/neopixel-idf.h:79-89 | the buffer has the 72 items of three LEDs |
| Ws2812.FramePeriodic | esphome/neopixel-idf.h:80-89 | all LEDs receive the same items: the buffer repeats every 24 items |
| Ws2812.MaskItemsRoundTrip | esphome/neopixel-idf.h:82-88 | decoding the items emitted for n bits from mask 2^(n-1) gives back the word's low n bits |
| Ws2812.LedItemsRoundTrip | esphome/neopixel-idf.h:81-88 | decoding one LED's 24 items gives back every 24-bit word |
| Ws2812.FrameRoundTrip | esphome/neopixel-idf.h:74-89 | every LED's slice of the buffer decodes to the packed colour |
| Ws2812.WriteLed | esphome/neopixel-idf.h:81-88 | the inner loop writes LED `led`'s 24 items, most significant bit first, at `led * 24` and leaves the rest of the buffer alone |
| Ws2812.WriteState | esphome/neopixel-idf.h:70-89 | the nested loops fill a fresh buffer equal to the frame of the packed colour |
| DisplayComponent.LedCall | esphome/custom_components/co2display/co2display.h:70-95 | the light call never saves; brightness is set exactly for an argument other than -1; an on/off state is set exactly in improv mode or for a numeric reading (not for NaN); a colour only with the light on |
| DisplayComponent.ImprovOverridesReading | esphome/custom_components/co2display/co2display.h:79-81 | in improv mode the call is on and blue, independent of reading and thresholds |
| DisplayComponent.LedsOnIff | esphome/custom_components/co2display/co2display.h:82-93 | outside improv a numeric reading switches the LEDs on exactly at or above the green threshold, and off means no colour |
| DisplayComponent.LedColourMonotone | esphome/custom_components/co2display/co2display.h:82-93 | with ordered thresholds the colour (off, green, amber, red) never becomes less alarming as the reading rises, and each colour holds on exactly its band |
| DisplayComponent.LedColourBands | esphome/custom_components/co2display/co2display.h:82-93 | for any thresholds, ordered or not, green is shown exactly from green up to below orange, amber exactly from green and orange up to below red, red exactly at or above all three: the first match of the chain |
| DisplayComponent.Co2Display.constructor | esphome/custom_components/co2display/co2display.h:124-141 | a display not in improv mode, without QR code and with no light call yet |
| DisplayComponent.Co2Display.UpdateLeds | esphome/custom_components/co2display/co2display.h:70-95 | without LEDs nothing happens; otherwise exactly `LedCall` of the current state is performed, and the light's brightness changes only for an argument other than -1 |
| DisplayComponent.Co2Display.SetCo2 | esphome/custom_components/co2display/co2display.h:32-35 | the reading is stored, then the LEDs are recomputed from it with the brightness untouched |
| DisplayComponent.Co2Display.SetImprov | esphome/custom_components/co2display/co2display.h:39-59 | `ImprovSetTo`: a no-op for the current mode; a switch recomputes the LEDs in the new mode, creates (entering) or drops (leaving) the setup QR code and caches the brightness on entry; the brightness, readings, thresholds and LED pointer never change; and "QR code exactly in improv mode" is kept |
| DisplayComponent.Co2Display.Writer | esphome/custom_components/co2display/co2display.h:97-121 | the improv screen, with the setup URL and the QR code, exactly in improv mode; otherwise the CO2 screen with "W" exactly when WiFi is up |
| DisplayComponent.ValidScreen | esphome/custom_components/co2display/co2display.h:45-58 | a display in improv mode always shows the setup QR code, otherwise the reading |
| ImprovComponent.StopAdvertisingEffects | esphome/custom_components/co2improv/co2improv.h:20-25 | advertising is stopped exactly when BLE exists |
| ImprovComponent.TruncDiv | esphome/custom_components/co2improv/co2improv.h:48 | integer division rounds toward zero: the remainder has the dividend's sign and is smaller than the divisor |
| ImprovComponent.AgeSeconds | esphome/custom_components/co2improv/co2improv.h:47-48 | `ageS` is the number of whole seconds elapsed since the start, rounded toward zero (also for a clock behind the start) |
| ImprovComponent.TimedOut | esphome/custom_components/co2improv/co2improv.h:49 | the predicate `ageS > 120`; it has no contract of its own, and `TimedOutIff` states what it means |
| ImprovComponent.TimedOutIff | esphome/custom_components/co2improv/co2improv.h:47-49 | improv times out exactly when at least 121 000 000 microseconds have elapsed |
| ImprovComponent.Co2Improv.constructor | esphome/custom_components/co2improv/co2improv.h:105-110 | not in improv mode, no timer pending, no effect yet, WiFi on |
| ImprovComponent.Co2Improv.Setup | esphome/custom_components/co2improv/co2improv.h:29-34 | improv off, published as the initial state, an advertising stop scheduled after 10 000 ms |
| ImprovComponent.Co2Improv.SetState | esphome/custom_components/co2improv/co2improv.h:56-84 | the state is stored, published and forwarded to an attached display, which changes as `set_improv` changes it (`ImprovSetTo`) and nothing more; entering records the time and disables WiFi, then starts improv and advertising; leaving stops advertising (by timer for a delay other than -1) and re-enables WiFi; afterwards WiFi is off exactly in improv mode |
| ImprovComponent.Co2Improv.Loop | esphome/custom_components/co2improv/co2improv.h:36-54 | nothing outside improv, the display included; with WiFi connected improv ends with a 2000 ms stop timer; otherwise improv ends exactly when it has timed out; the display changes exactly when improv ends, and then as `set_improv(false)` changes it |
| ImprovComponent.Co2Improv.StartImprov | esphome/custom_components/co2improv/co2improv.h:89-103 | nothing without BLE, the display included; otherwise a toggle: leaving stops advertising at once, entering first cancels the pending stop timer, and the display follows the new mode as `set_improv` sets it |
| ImprovComponent.Co2Improv.TriggerActions | esphome/custom_components/co2improv/co2improv.h:66-83 | in improv the start time is recorded and WiFi disabled before improv and advertising start; otherwise advertising stops (by timer for a delay other than -1) and WiFi is re-enabled; afterwards WiFi is off exactly in improv mode |
| ImprovComponent.Co2Improv.StopTimerFires | esphome/custom_components/co2improv/co2improv.h:20-25 | the pending stop timer clears and stops advertising when BLE exists |
| GitRev.LeadingSpaces | gitrev.py:10 | the count of leading whitespace that `strip()` removes never exceeds the length |
| GitRev.TrailingSpaces | gitrev.py:10 | the count of trailing whitespace that `strip()` removes never exceeds the length |
| GitRev.LeadingSpacesSpec | gitrev.py:10 | the leading run counted is all whitespace and is followed by a character that is not |
| GitRev.TrailingSpacesSpec | gitrev.py:10 | the trailing run counted is all whitespace and is preceded by a character that is not |
| GitRev.Strip | gitrev.py:10 | `.strip()` of each git output (lines 10, 16 and 22); it has no contract of its own, and `StripSpec`, `StripTrimmed` and `StripIdempotent` state what it computes |
| GitRev.StripSpec | gitrev.py:10 | `strip()` gives a slice of the input with only whitespace cut on either side and none left at either end |
| GitRev.StripTrimmed | gitrev.py:10 | a string without whitespace at its ends is unchanged by stripping |
| GitRev.StripIdempotent | gitrev.py:10 | stripping twice equals stripping once |
| GitRev.ComposeVersion | gitrev.py:7-26 | the script's `+=` steps give the tag, then `-[branch]` off the release branch, then `-timestamp` for a dirty tree |
| GitRev.ReleaseCleanIsTag | gitrev.py:7-26 | on `main` with a clean tree the version is the tag |
| GitRev.TagIsPrefix | gitrev.py:10 | the tag is always a prefix of the version |
| GitRev.BranchFollowsTag | gitrev.py:18-19 | off the release branch `-[branch]` directly follows the tag, so the branch can be read back |
| GitRev.TimestampLast | gitrev.py:22-26 | a dirty tree puts `-timestamp` last; a clean tree adds nothing after the branch part |

## Left out

- Rendering and transmission are not modelled: Adafruit_NeoPixel, the MatrixPanel bitmaps, SSD1306 text, QR generation, `rmt_write_items` and `rmt_wait_tx_done`. Each is represented by the data it is given.
- The Ticker timers, `delay`, FreeRTOS tasks and the concurrency between sensor tasks and timer callbacks are not modelled. `timer()` is an ordinary method call.
- The status enum is declared in model.h, which is not part of this model. The order UNDEFINED < GREEN < YELLOW < RED < DARK_RED is an assumption, fixed by `TrafficLight.Rank`.
- The global `config` thresholds and brightness are parameters, read at the moment of each call. The same holds for the ESPHome threshold globals (`LedThresholds`).
- Floats are a number or NaN (`CTypes.Float`). They are compared exactly. Rounding of ints to float and the float value of 0.7 are not modelled.
- SensorModel.Model.constructor: the five PM fields are left uninitialised by the constructor, so their value is a parameter.
- The model getters other than `GetPm1_0` are plain field reads without contracts.
- Ws2812.WriteState: the colour bytes `(uint32_t)(0xFF * green)` etc. are taken as given bytes. The bit test `per_led & mask` is stated on integers as `(w / mask) % 2 == 1`, and `mask >>= 1` as `mask / 2`. This is exact for the single-bit masks used, and 32-bit overflow cannot arise because the word is below 2^24.
- The `HUB75` constructor calls `matrix->begin()` even when the panel pins are not configured and no matrix was created. The model assumes a panel is present. Brightness is set from the configuration at each update.
- Co2Display `setup`, the font and threshold setters, and `set_temperature`, `set_humidity`, `set_wifi` and `set_leds` are plain field stores and are not modelled as methods. The component's fields have no initial values in C++, so the model's constructor chooses them.
- DisplayComponent.Co2Display.SetImprov: requires LEDs to be attached when entering improv mode, because `set_improv` dereferences the LED pointer there without a null check. The `free()` of an object allocated with `new` is modelled as dropping the QR code.
- DisplayComponent.Co2Display.SetImprov: `leds->current_values_as_brightness(&oldBrightness)` reports the light's current output as computed by the ESPHome light library, which is not part of this model; it is modelled as the stored brightness `lightBrightness`. The cached value is only logged, so no behaviour depends on it.
- ImprovComponent.Co2Improv.SetState: requires BLE to be present when entering improv mode, because it dereferences `global_ble` without a check. `startImprov` checks for BLE before calling it.
- ImprovComponent.Co2Improv.Loop: the `int64_t` subtraction `now - improvStart` is taken on unbounded integers, because timer values cannot overflow it.
- The internals of the esp32_improv component, BLE and the WiFi component are recorded only as effects. A new `set_timeout` under the same name replaces the pending one (`pendingStop`).
- GitRev.ComposeVersion: the commit hash (gitrev.py:13) is computed but never used, and is left out. Failing git commands, UTF-8 decoding and the formatting of the time are not modelled; the timestamp is a parameter.
- GitRev.IsSpace: Python's `strip()` removes all Unicode whitespace; only the ASCII and Latin-1 whitespace characters are modelled.

## Findings

| source | as written | input that shows it | evidently intended | confidence | as-written member | corrected member |
|---|---|---|---|---|---|---|
| src/model.cpp:96-98 | `getPM1_0` returns the `pm10` field | a sample with pm1_0 = 1 and pm10 = 2 is reported as PM1.0 = 2 | return `pm1_0` | high, not executed | SensorModel.Pm1_0AsWritten | SensorModel.Model.GetPm1_0 |
| src/model.cpp:68-70 | the mask is `M_PM0_5 \|\| M_PM1_0 \|\| M_PM2_5 \|\| M_PM4 \|\| M_PM10`, a logical or, which is the integer 1 | any five distinct single-bit flags: the mask holds at most one of them | the bitwise or `\|` of the five flags | high, not executed | SensorModel.PmMaskAsWritten | SensorModel.PmMask |
