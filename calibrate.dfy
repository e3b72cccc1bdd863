/** The calibration sketch: measure the IR proximity sensor over and over and
    show on the status LED whether the averaged reading is above the
    calibration threshold, so the threshold for the letterbox sensor can be
    chosen by looking at the LED. */
module Calibrate {
  import opened Hardware
  import opened Proximity

  /** `THRESHOLD` of the calibration sketch. */
  const Threshold: U16 := 15

  /** What `checkLetter()` returns for converter readings `adc`: whether the
      averaged reading is strictly above the threshold, that is, whether
      the three readings add up to at least 3 * (Threshold + 1) = 48. */
  function Detects(adc: seq<AdcSample>): (letter: bool)
    requires |adc| == SampleCount
    ensures letter <==> (adc[0] as int + adc[1] + adc[2]) / 3 > Threshold
    ensures letter <==> adc[0] as int + adc[1] + adc[2] >= 3 * (Threshold + 1)
  {
    Measure(adc) > Threshold
  }

  /** The level `loop()` writes to the status LED for readings `adc`. */
  function StatusLevel(adc: seq<AdcSample>): Level
    requires |adc| == SampleCount
  {
    if Detects(adc) then High else Low
  }

  class Sketch {
    const board: Board

    ghost predicate Valid()
      reads this, board
    {
      board.Valid()
    }

    /** `setup()`: blink the status LED once. */
    constructor ()
      ensures Valid() && fresh(board)
      ensures board.trace == [Write(StatusLed, High), Write(StatusLed, Low)]
      ensures forall p: Pin :: p in board.levels && board.levels[p] == Low
    {
      board := new Board();
      new;
      board.DigitalWrite(StatusLed, High);
      board.DigitalWrite(StatusLed, Low);
    }

    /** `checkLetter()`: light the sensor, read the converter three times
        (it yields `adc`), switch the sensor off, and compare the average
        with the threshold. */
    method CheckLetter(adc: seq<AdcSample>) returns (letter: bool)
      requires Valid() && |adc| == SampleCount
      modifies board
      ensures Valid()
      ensures letter == Detects(adc)
      ensures board.trace == old(board.trace) + SampleTrace(adc)
      ensures board.levels[IrLed] == Low && board.levels[IrDiode] == Low
      ensures board.levels[StatusLed] == old(board.levels[StatusLed])
    {
      board.DigitalWrite(IrLed, High);
      board.DigitalWrite(IrDiode, High);
      ghost var lit := board.trace;
      var measure: U16 := 0;
      var i := 0;
      while i < SampleCount
        invariant 0 <= i <= SampleCount
        invariant board.Valid()
        invariant measure == Accumulate(adc[..i])
        invariant board.trace == lit + Reads(adc[..i])
      {
        var v := board.AnalogRead(adc[i]);
        assert adc[..i + 1][..i] == adc[..i];
        assert Reads(adc[..i + 1]) == Reads(adc[..i]) + [Read(adc[i])];
        measure := ToU16(measure + v);
        i := i + 1;
      }
      board.DigitalWrite(IrLed, Low);
      board.DigitalWrite(IrDiode, Low);
      assert adc[..i] == adc;
      SamplingEndsDark(old(board.trace), adc);
      measure := measure / 3;
      letter := measure > Threshold;
    }

    /** One pass of `loop()`: the status LED ends HIGH exactly when
        `checkLetter()` answered true, and the IR LED and diode end LOW. */
    method Loop(adc: seq<AdcSample>)
      requires Valid() && |adc| == SampleCount
      modifies board
      ensures Valid()
      ensures board.trace == old(board.trace) + SampleTrace(adc) + [Write(StatusLed, StatusLevel(adc))]
      ensures board.levels[StatusLed] == StatusLevel(adc)
      ensures board.levels[IrLed] == Low && board.levels[IrDiode] == Low
    {
      var letter := CheckLetter(adc);
      if letter {
        board.DigitalWrite(StatusLed, High);
      } else {
        board.DigitalWrite(StatusLed, Low);
      }
    }
  }
}
