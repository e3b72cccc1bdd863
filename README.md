# Letterbox sensor firmware, modelled in Dafny

This project models the two microcontroller sketches of the letterbox sensor:

- **letterbox_sensor**: an ATtiny with an RFM95 LoRa radio. On each wake-up
  that the sleep scheduler reports as due, it measures an infrared proximity
  sensor (three converter readings averaged by integer division), builds a
  7-byte uplink frame and hands it to the LoRaWAN stack under a 16-bit frame
  counter. It then increments the counter, resets the sleep time to 1800
  seconds and sleeps. The frame layout is: byte 0 `0xFF` if the reading is
  strictly above the threshold 30, else `0x00`; bytes 1-2 the battery voltage
  and bytes 3-4 the reading, both 16-bit little-endian; byte 5 the threshold
  30; byte 6 the radio's temperature byte.
- **calibrate**: the same measurement in a tight loop. It lights the status
  LED exactly when the averaged reading is strictly above 15.

Files:

- `hardware.dfy` (module `Hardware`): the AVR integer types (`Byte`, the
  16-bit `U16` of `unsigned int`, the 10-bit `AdcSample`). It also holds the
  three output pins (IR LED on pin 3, IR diode on pin 7, status LED on pin 2)
  and a `Board` class. A `Board` keeps the pin levels as a map, plus the trace
  of every `digitalWrite` and `analogRead` so far. Its invariant says that the
  map is the one the trace determines (`LevelAfter`).
- `proximity.dfy` (module `Proximity`): the specification both `checkLetter`
  routines are proved against. It has the 16-bit accumulation (`Accumulate`,
  each addition reduced modulo 2^16 as the source's `unsigned int` does) and
  the average `Measure`. It also has the I/O a measurement performs
  (`SampleTrace`) and lemmas about that I/O.
- `letterbox_sensor.dfy` (module `LetterboxSensor`): the frame encoder
  `EncodeFrame` and a reference decoder `DecodeFrame` with round-trip lemmas in
  both directions. The class `Sketch` holds the board, `Frame_Counter_Tx`, the
  sleep time, the frames handed off and the sleeps taken. `FillFrame` fills the
  `Data` array in place.
- `calibrate.dfy` (module `Calibrate`): the decision `Detects` and the class
  `Sketch` whose `Loop` drives the status LED.

Inputs from hardware become parameters. These are `at.checkAction()` (a
boolean), the converter readings, `at.getVoltage()` (an integer, converted to
`unsigned int` modulo 2^16 as the assignment `unsigned int vol = ...` does)
and `rfm.RFM_Temp()` (an opaque byte). The readings are 0..1023, the range of
the AVR's 10-bit converter. So the 16-bit accumulator of `checkLetter` cannot
wrap for three readings (`AccumulateNoWrap`), and the average is the true
floor of the mean. `DecodeFrame` is not part of the firmware. It states the
layout as a receiver reads it, so the encoder can be given an inverse.

## Model

| member | source | states |
|---|---|---|
| Hardware.Board.constructor | letterbox_sensor/src/main.cpp:46-48 | the pins the sketches configure as outputs start LOW (the reset state of the port) and nothing has been written or read yet |
| Hardware.Board.DigitalWrite | calibrate/src/main.cpp:49-53 | a `digitalWrite` sets exactly that pin's level, appends the write to the trace, and keeps the level map equal to the one the trace determines |
| Hardware.Board.AnalogRead | calibrate/src/main.cpp:68 | an `analogRead` returns the converter's value, appends it to the trace and changes no pin level |
| Proximity.AccumulateNoWrap | letterbox_sensor/src/main.cpp:111-116 | accumulating up to 64 converter readings in a 16-bit `unsigned int` never wraps: the result is the true sum, at most 1023 per reading |
| Proximity.SumBetween | calibrate/src/main.cpp:66-73 | a sum of n readings lies between n times the smallest and n times the largest reading |
| Proximity.Measure | letterbox_sensor/src/main.cpp:111-121 | the value `checkLetter` computes is floor((s1+s2+s3)/3) of the three readings, and lies between the smallest and the largest of them |
| Proximity.SampledValues | calibrate/src/main.cpp:65-69 | a measurement reads the converter exactly three times, and the values it averages are exactly the values read, in order |
| Proximity.SamplingIsLit | calibrate/src/main.cpp:62-69 | every converter read of a measurement happens while the IR LED and the IR diode are both HIGH |
| Proximity.SamplingEndsDark | calibrate/src/main.cpp:70-71 | after a measurement the IR LED and IR diode are both LOW and the status LED is as it was before |
| LetterboxSensor.ByteSplit | letterbox_sensor/src/main.cpp:73-77 | the masked low byte and shifted high byte of a 16-bit value rebuild it little-endian |
| LetterboxSensor.ByteJoin | letterbox_sensor/src/main.cpp:73-77 | two bytes joined little-endian split back into the same low and high bytes |
| LetterboxSensor.EncodeFrame | letterbox_sensor/src/main.cpp:60-81 | the frame has 7 bytes; byte 0 is 0xFF iff the reading is strictly above 30 and 0x00 otherwise; bytes 1-2 are the voltage and bytes 3-4 the reading, little-endian; byte 5 is the threshold 30; byte 6 the temperature byte |
| LetterboxSensor.DecodeEncode | letterbox_sensor/src/main.cpp:65-81 | decoding an encoded frame yields the reading, the voltage, the temperature, the strict threshold decision and the threshold 30, so the frame is consistent |
| LetterboxSensor.EncodeDecode | letterbox_sensor/src/main.cpp:65-81 | every consistent 7-byte frame (flag agrees with the reading, byte 5 is 30) is exactly the encoding of what it decodes to |
| LetterboxSensor.AtThresholdIsEmpty | letterbox_sensor/src/main.cpp:65-69 | a reading of exactly 30 is encoded as empty (0x00) and 31 as full (0xFF) |
| LetterboxSensor.CounterStep | letterbox_sensor/src/main.cpp:88 | incrementing the 16-bit counter after n frames gives its value after n + 1 frames |
| LetterboxSensor.FillFrame | letterbox_sensor/src/main.cpp:60-81 | filling `Data[0..6]` in place produces exactly the encoded frame |
| LetterboxSensor.Sketch.constructor | letterbox_sensor/src/main.cpp:37-54 | after `setup()` the counter is 0, no frame is sent, the sleep time is 1800, the status LED has blinked once and every pin is LOW |
| LetterboxSensor.Sketch.CheckLetter | letterbox_sensor/src/main.cpp:108-122 | returns the average of the three readings; performs exactly the measurement I/O; leaves the IR pins LOW and the status LED unchanged; keeps the invariant |
| LetterboxSensor.Sketch.Transmit | letterbox_sensor/src/main.cpp:87-88 | the frame is handed off under the current counter, then the counter goes up by one modulo 2^16; the i-th frame ever sent carries counter i modulo 2^16 |
| LetterboxSensor.Sketch.SendReading | letterbox_sensor/src/main.cpp:58-89 | a due wake-up sends exactly one frame, the encoding of the measured average, the converted voltage and the temperature, under the old counter, and increments the counter |
| LetterboxSensor.Sketch.Loop | letterbox_sensor/src/main.cpp:56-99 | when an action is due one frame is sent and the counter goes up by one modulo 2^16; otherwise no frame, counter and pins unchanged; either way the sleep time is 1800 before sleeping |
| Calibrate.Detects | calibrate/src/main.cpp:73-81 | `checkLetter` answers true iff floor((s1+s2+s3)/3) is strictly above 15, that is iff the readings sum to at least 48 |
| Calibrate.Sketch.constructor | calibrate/src/main.cpp:32-45 | after `setup()` the status LED has blinked once and every pin is LOW |
| Calibrate.Sketch.CheckLetter | calibrate/src/main.cpp:61-82 | returns `Detects` of the readings; performs exactly the measurement I/O; leaves the IR pins LOW and the status LED unchanged |
| Calibrate.Sketch.Loop | calibrate/src/main.cpp:47-58 | after each pass the status LED is HIGH iff `checkLetter()` returned true and LOW otherwise, and both IR pins are LOW |

## Left out

- LoRaWAN framing, encryption and MAC of `lora.Send_Data`: a library whose source is not part of this model. A send is modelled only as "this payload was handed off under this counter value".
- `rfm.init()`, `lora.setKeys(...)` and the session keys: configuration of foreign libraries.
- `pinMode(...)`: pin direction is not modelled. All three pins are treated as outputs from power-on.
- `delay(...)`: no timing semantics. The order of I/O events is kept and the durations are not.
- The watchdog interrupt `incrCycles` and the sleep scheduling inside `at.checkAction()` and `at.gotoSleep()`: interrupt-driven hardware timing. `checkAction()` is a boolean parameter of `Loop`. A `gotoSleep()` is recorded as the sleep time in force when it is called.
- `rfm.RFM_Temp()`: its return type is not part of this model. Byte 6 is an opaque input byte.
- `at.getVoltage()`: its return type is not part of this model. It is taken as an integer and converted to `unsigned int` modulo 2^16.
- The range of `analogRead`: taken as 0..1023 (10-bit converter). Wider values would make the 16-bit accumulator wrap, and `Accumulate` models that wrap.
- LetterboxSensor.Sketch.Transmit: requires the frame to be consistent, which the source's `Send_Data` does not check. The only caller, `loop()`, always passes the frame it has just built.
- The commented-out alternatives in both sketches (other thresholds, pins, lengths and status-LED blinks) are not modelled.
- The server-side ingestion, authentication, notification and graphing code is not part of this model.
