/** The slice of the ATtiny board that both sketches drive: three digital
    output pins, one analog input, and the fixed-width integer types of the
    AVR tool chain (`uint8_t` and the 16-bit `unsigned int`). */
module Hardware {

  /** `uint8_t`. */
  type Byte = x: int | 0 <= x < 0x100

  /** `unsigned int` on the AVR target is 16 bits wide. */
  type U16 = x: int | 0 <= x < 0x1_0000

  /** A reading of the 10-bit analog-to-digital converter, as `analogRead` returns it. */
  type AdcSample = x: int | 0 <= x < 0x400

  /** Implicit conversion of any integer to `unsigned int`: reduction modulo 2^16
      (Dafny's `%` is Euclidean, so this is also right for negative values). */
  function ToU16(x: int): (r: U16)
    ensures 0 <= x < 0x1_0000 ==> r == x
  {
    x % 0x1_0000
  }

  /** The digital output pins both sketches configure (Arduino pins 3, 7 and 2). */
  datatype Pin = IrLed | IrDiode | StatusLed

  datatype Level = Low | High

  /** What the sketch does to the outside world, in order: a `digitalWrite`
      or an `analogRead` of the proximity sensor's output (pin A2) together
      with the value the converter produced. */
  datatype IoEvent = Write(pin: Pin, level: Level) | Read(value: AdcSample)

  /** The level of pin `p` after the events of `trace`: the last level written
      to it, or `Low` (the reset state of an AVR output port) if none was. */
  function LevelAfter(trace: seq<IoEvent>, p: Pin): Level
  {
    if trace == [] then Low
    else
      match trace[|trace| - 1]
      case Write(q, l) => if q == p then l else LevelAfter(trace[..|trace| - 1], p)
      case Read(_) => LevelAfter(trace[..|trace| - 1], p)
  }

  /** No event of `u` writes pin `p`. */
  predicate LeavesPin(u: seq<IoEvent>, p: Pin)
  {
    forall k :: 0 <= k < |u| ==> !(u[k].Write? && u[k].pin == p)
  }

  /** Events that do not write `p` do not change its level. */
  lemma {:induction false} LevelAfterLeaves(t: seq<IoEvent>, u: seq<IoEvent>, p: Pin)
    requires LeavesPin(u, p)
    ensures LevelAfter(t + u, p) == LevelAfter(t, p)
    decreases |u|
  {
    if u != [] {
      var n := |u| - 1;
      assert (t + u)[..|t + u| - 1] == t + u[..n];
      assert (t + u)[|t + u| - 1] == u[n];
      LevelAfterLeaves(t, u[..n], p);
    } else {
      assert t + u == t;
    }
  }

  /** A write decides the level of the pin it writes and no other. */
  lemma LevelAfterWrite(t: seq<IoEvent>, q: Pin, l: Level, p: Pin)
    ensures LevelAfter(t + [Write(q, l)], p) == if p == q then l else LevelAfter(t, p)
  {
    assert (t + [Write(q, l)])[..|t|] == t;
  }

  /** The board's output pins as a map from pin to current level, together
      with the trace of everything the sketch has done to the pins and the
      converter so far. */
  class Board {
    var levels: map<Pin, Level>
    var trace: seq<IoEvent>

    /** The level map is always the one the trace determines. */
    ghost predicate Valid()
      reads this
    {
      forall p: Pin :: p in levels && levels[p] == LevelAfter(trace, p)
    }

    /** Power-on: every output pin low, nothing done yet. */
    constructor ()
      ensures Valid() && trace == []
      ensures forall p: Pin :: p in levels && levels[p] == Low
    {
      levels := map[IrLed := Low, IrDiode := Low, StatusLed := Low];
      trace := [];
      new;
      forall p: Pin ensures p in levels && levels[p] == Low {
        match p
        case IrLed =>
        case IrDiode =>
        case StatusLed =>
      }
    }

    /** `digitalWrite(pin, level)`. */
    method DigitalWrite(pin: Pin, level: Level)
      requires Valid()
      modifies this
      ensures Valid()
      ensures levels == old(levels)[pin := level]
      ensures trace == old(trace) + [Write(pin, level)]
    {
      forall p: Pin ensures LevelAfter(trace + [Write(pin, level)], p) == if p == pin then level else LevelAfter(trace, p) {
        LevelAfterWrite(trace, pin, level, p);
      }
      levels := levels[pin := level];
      trace := trace + [Write(pin, level)];
    }

    /** `analogRead(irsens)`; `value` is what the converter produces. */
    method AnalogRead(value: AdcSample) returns (r: AdcSample)
      requires Valid()
      modifies this
      ensures Valid()
      ensures r == value
      ensures levels == old(levels)
      ensures trace == old(trace) + [Read(value)]
    {
      forall p: Pin ensures LevelAfter(trace + [Read(value)], p) == LevelAfter(trace, p) {
        assert (trace + [Read(value)])[..|trace|] == trace;
      }
      trace := trace + [Read(value)];
      r := value;
    }
  }
}
