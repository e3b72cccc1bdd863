/** The letterbox sensor sketch: on every wake-up that the sleep scheduler
    reports as due, measure the IR proximity sensor, build a 7-byte uplink
    frame (full/empty flag, battery voltage, reading, threshold, radio
    temperature), hand it to the LoRaWAN stack with the current frame
    counter, bump the counter, and go back to sleep for 1800 seconds. */
module LetterboxSensor {
  import opened Hardware
  import opened Proximity

  /** `THRESHOLD`: readings strictly above it mean "a letter is in the box". */
  const Threshold: U16 := 30

  /** `Data_Length`. */
  const FrameLength := 7

  /** `atsleep`: the sleep time set before every sleep, in seconds (30 minutes). */
  const SleepSeconds := 1800

  /** Byte 0 of a frame: box full / box empty. */
  const FullFlag: Byte := 0xFF
  const EmptyFlag: Byte := 0x00

  /** `x & 0xFF` on an unsigned value: its low eight bits. */
  function LowByte(x: U16): Byte
  {
    x % 0x100
  }

  /** `(x >> 8) & 0xFF` on an unsigned value: the shift divides by 256,
      the mask keeps the low eight bits. */
  function HighByte(x: U16): Byte
  {
    (x / 0x100) % 0x100
  }

  /** Two bytes read little-endian as a 16-bit value. */
  function Word(lo: Byte, hi: Byte): U16
  {
    lo + 0x100 * hi
  }

  /** The low and high bytes of a 16-bit value rebuild it. */
  lemma ByteSplit(x: U16)
    ensures Word(LowByte(x), HighByte(x)) == x
  {
  }

  /** Two bytes joined little-endian split back into the same two bytes. */
  lemma ByteJoin(lo: Byte, hi: Byte)
    ensures LowByte(Word(lo, hi)) == lo
    ensures HighByte(Word(lo, hi)) == hi
  {
  }

  /** The payload `loop()` builds in `Data[0..6]` from the averaged reading,
      the battery voltage (already converted to `unsigned int`) and the
      radio's temperature byte. */
  function EncodeFrame(measure: U16, voltage: U16, temperature: Byte): (f: seq<Byte>)
    ensures |f| == FrameLength
    ensures f[0] in {EmptyFlag, FullFlag}
    ensures f[0] == FullFlag <==> measure > Threshold
    ensures Word(f[1], f[2]) == voltage
    ensures Word(f[3], f[4]) == measure
    ensures f[5] == Threshold
    ensures f[6] == temperature
  {
    ByteSplit(voltage);
    ByteSplit(measure);
    [if measure > Threshold then FullFlag else EmptyFlag,
     LowByte(voltage), HighByte(voltage),
     LowByte(measure), HighByte(measure),
     Threshold,
     temperature]
  }

  datatype Option<T> = None | Some(value: T)

  /** The fields a receiver reads out of a frame. */
  datatype Report = Report(full: bool, voltage: U16, measure: U16, threshold: Byte, temperature: Byte)

  /** The reading of a 7-byte frame the encoder's layout prescribes; `None`
      for a frame of the wrong length or with a flag byte other than 0x00
      or 0xFF. */
  function DecodeFrame(f: seq<Byte>): Option<Report>
  {
    if |f| != FrameLength || f[0] !in {EmptyFlag, FullFlag} then None
    else Some(Report(f[0] == FullFlag, Word(f[1], f[2]), Word(f[3], f[4]), f[5], f[6]))
  }

  /** A frame this sketch can send: it decodes, carries the sketch's
      threshold, and its flag agrees with its reading. */
  predicate Consistent(f: seq<Byte>)
  {
    match DecodeFrame(f)
    case None => false
    case Some(r) => r.threshold == Threshold && r.full == (r.measure > Threshold)
  }

  /** Decoding an encoded frame gives back the reading, the voltage and the
      temperature, the strict threshold decision and the threshold constant. */
  lemma DecodeEncode(measure: U16, voltage: U16, temperature: Byte)
    ensures DecodeFrame(EncodeFrame(measure, voltage, temperature))
         == Some(Report(measure > Threshold, voltage, measure, Threshold, temperature))
    ensures Consistent(EncodeFrame(measure, voltage, temperature))
  {
  }

  /** Conversely, every consistent frame is the encoding of what it decodes to. */
  lemma EncodeDecode(f: seq<Byte>, r: Report)
    requires DecodeFrame(f) == Some(r)
    requires r.threshold == Threshold && r.full == (r.measure > Threshold)
    ensures EncodeFrame(r.measure, r.voltage, r.temperature) == f
  {
    ByteJoin(f[1], f[2]);
    ByteJoin(f[3], f[4]);
    var g := EncodeFrame(r.measure, r.voltage, r.temperature);
    assert forall k :: 0 <= k < FrameLength ==> g[k] == f[k];
  }

  /** A reading exactly at the threshold is reported as empty: the
      comparison is strict. */
  lemma AtThresholdIsEmpty(voltage: U16, temperature: Byte)
    ensures EncodeFrame(Threshold, voltage, temperature)[0] == EmptyFlag
    ensures EncodeFrame(Threshold + 1, voltage, temperature)[0] == FullFlag
  {
  }

  /** The statements of `loop()` that fill `Data[0..6]` in place. */
  method FillFrame(measure: U16, voltage: U16, temperature: Byte) returns (data: array<Byte>)
    ensures fresh(data)
    ensures data[..] == EncodeFrame(measure, voltage, temperature)
  {
    data := new Byte[FrameLength];
    if measure > Threshold {
      data[0] := FullFlag;
    } else {
      data[0] := EmptyFlag;
    }
    data[1] := LowByte(voltage);
    data[2] := HighByte(voltage);
    data[3] := LowByte(measure);
    data[4] := HighByte(measure);
    data[5] := Threshold;
    data[6] := temperature;
  }

  /** Incrementing the 16-bit counter after n frames gives its value after n + 1. */
  lemma CounterStep(n: nat)
    ensures ToU16(ToU16(n) + 1) == ToU16(n + 1)
  {
  }

  /** One frame handed to `lora.Send_Data`, with the frame counter it was sent under. */
  datatype Uplink = Uplink(payload: seq<Byte>, counter: U16)

  /** The n-th frame the sketch sends (counting from 0) goes out under
      counter n modulo 2^16 and is consistent. */
  predicate SentAs(u: Uplink, n: nat)
  {
    u.counter == ToU16(n) && Consistent(u.payload)
  }

  /** The sketch's state: the board it drives, the global `Frame_Counter_Tx`,
      the sleep time last given to the sleep scheduler, and what it has
      handed to the radio and to the scheduler so far. */
  class Sketch {
    const board: Board
    var frameCounter: U16
    var sleepTime: nat
    /** Every frame handed to the LoRaWAN stack, in order. */
    var uplinks: seq<Uplink>
    /** The sleep time in force at every `gotoSleep`, in order. */
    var sleeps: seq<nat>

    /** The i-th frame sent carries counter i modulo 2^16, the counter is the
        number of frames sent modulo 2^16, every frame sent is consistent,
        and every sleep lasts `SleepSeconds`. */
    ghost predicate Valid()
      reads this, board
    {
      && board.Valid()
      && frameCounter == ToU16(|uplinks|)
      && (forall i :: 0 <= i < |uplinks| ==> SentAs(uplinks[i], i))
      && sleepTime == SleepSeconds
      && (forall i :: 0 <= i < |sleeps| ==> sleeps[i] == SleepSeconds)
    }

    /** `setup()` together with the initialisation of `Frame_Counter_Tx`:
        set the sleep time and blink the status LED once. */
    constructor ()
      ensures Valid() && fresh(board)
      ensures frameCounter == 0 && uplinks == [] && sleeps == [] && sleepTime == SleepSeconds
      ensures board.trace == [Write(StatusLed, High), Write(StatusLed, Low)]
      ensures forall p: Pin :: p in board.levels && board.levels[p] == Low
    {
      board := new Board();
      frameCounter := 0;
      sleepTime := SleepSeconds;
      uplinks := [];
      sleeps := [];
      new;
      board.DigitalWrite(StatusLed, High);
      board.DigitalWrite(StatusLed, Low);
    }

    /** `checkLetter()`: light the sensor, read the converter three times
        (the converter yields `adc`), switch the sensor off, and return
        the sum divided by 3. */
    method CheckLetter(adc: seq<AdcSample>) returns (measure: U16)
      requires Valid() && |adc| == SampleCount
      modifies board
      ensures Valid()
      ensures measure == Measure(adc)
      ensures board.trace == old(board.trace) + SampleTrace(adc)
      ensures board.levels[IrLed] == Low && board.levels[IrDiode] == Low
      ensures board.levels[StatusLed] == old(board.levels[StatusLed])
    {
      board.DigitalWrite(IrLed, High);
      board.DigitalWrite(IrDiode, High);
      ghost var lit := board.trace;
      measure := 0;
      var i := 0;
      while i < SampleCount
        invariant 0 <= i <= SampleCount
        invariant board.Valid()
        invariant measure == Accumulate(adc[..i])
        invariant board.trace == lit + Reads(adc[..i])
      {
        var v := board.AnalogRead(adc[i]);
        assert adc[..i + 1][..i] == adc[..i];
        assert Reads(adc[..i + 1]) == Reads(adc[..i]) + [Read(adc[i])];
        measure := ToU16(measure + v);
        i := i + 1;
      }
      board.DigitalWrite(IrLed, Low);
      board.DigitalWrite(IrDiode, Low);
      assert adc[..i] == adc;
      SamplingEndsDark(old(board.trace), adc);
      measure := measure / 3;
    }

    /** The body of `if (at.checkAction())` in `loop()`: measure, fill
        `Data`, hand it off under the current frame counter, and increment
        the counter. */
    method SendReading(adc: seq<AdcSample>, voltage: int, temperature: Byte)
      requires Valid() && |adc| == SampleCount
      modifies this, board
      ensures Valid()
      ensures uplinks == old(uplinks) + [Uplink(EncodeFrame(Measure(adc), ToU16(voltage), temperature), old(frameCounter))]
      ensures frameCounter == ToU16(old(frameCounter) + 1)
      ensures board.trace == old(board.trace) + SampleTrace(adc)
      ensures sleepTime == old(sleepTime) && sleeps == old(sleeps)
    {
      var measure := CheckLetter(adc);
      var data := FillFrame(measure, ToU16(voltage), temperature);
      var frame := data[..];
      DecodeEncode(measure, ToU16(voltage), temperature);
      Transmit(frame);
    }

    /** `lora.Send_Data(Data, Data_Length, Frame_Counter_Tx)` followed by
        `Frame_Counter_Tx++`: the frame is handed off under the current
        counter, and the 16-bit counter then goes up by one. The frame is
        the one `loop()` has just built, which is what keeps every frame
        ever sent consistent. */
    method Transmit(frame: seq<Byte>)
      requires Valid() && Consistent(frame)
      modifies this
      ensures Valid()
      ensures uplinks == old(uplinks) + [Uplink(frame, old(frameCounter))]
      ensures frameCounter == ToU16(old(frameCounter) + 1)
      ensures sleepTime == old(sleepTime) && sleeps == old(sleeps)
    {
      var sent := Uplink(frame, frameCounter);
      CounterStep(|uplinks|);
      ghost var prev := uplinks;
      uplinks := uplinks + [sent];
      frameCounter := ToU16(frameCounter + 1);
      forall i | 0 <= i < |uplinks| ensures SentAs(uplinks[i], i) {
        if i < |prev| {
          assert uplinks[i] == prev[i];
        }
      }
    }

    /** One pass of `loop()`. `action` is what `at.checkAction()` answers,
        `adc` what the converter yields, `voltage` what `at.getVoltage()`
        returns and `temperature` the byte `rfm.RFM_Temp()` gives. When a
        frame is due, it is built, sent under the current counter and the
        counter is incremented; either way the sleep time is reset to
        `SleepSeconds` and the sketch sleeps. */
    method Loop(action: bool, adc: seq<AdcSample>, voltage: int, temperature: Byte)
      requires Valid() && (action ==> |adc| == SampleCount)
      modifies this, board
      ensures Valid()
      ensures sleepTime == SleepSeconds && sleeps == old(sleeps) + [SleepSeconds]
      ensures action ==>
        && uplinks == old(uplinks) + [Uplink(EncodeFrame(Measure(adc), ToU16(voltage), temperature), old(frameCounter))]
        && frameCounter == ToU16(old(frameCounter) + 1)
        && board.trace == old(board.trace) + SampleTrace(adc)
      ensures !action ==>
        && uplinks == old(uplinks)
        && frameCounter == old(frameCounter)
        && board.trace == old(board.trace)
        && board.levels == old(board.levels)
    {
      if action {
        SendReading(adc, voltage, temperature);
      }
      // reset the sleep time, then sleep under it
      sleepTime := SleepSeconds;
      sleeps := sleeps + [sleepTime];
    }
  }
}
