/** The infrared proximity measurement that both sketches' `checkLetter`
    perform: light the IR LED and power the receiving diode, read the
    converter three times, switch both off again, and average the readings
    by integer division. This module holds the specification the two
    `checkLetter` methods are proved against. */
module Proximity {
  import opened Hardware

  /** Both `checkLetter` routines take exactly this many samples. */
  const SampleCount := 3

  /** `measure += analogRead(irsens)` over `samples`, starting from 0, in the
      16-bit `unsigned int` of the source (each addition reduced modulo 2^16). */
  function Accumulate(samples: seq<AdcSample>): U16
  {
    if samples == [] then 0
    else ToU16(Accumulate(samples[..|samples| - 1]) + samples[|samples| - 1])
  }

  /** The mathematical sum, with no wrap-around. */
  function Sum(s: seq<int>): int
  {
    if s == [] then 0 else Sum(s[..|s| - 1]) + s[|s| - 1]
  }

  function Lowest(s: seq<int>): int
    requires s != []
  {
    if |s| == 1 then s[0]
    else var m := Lowest(s[..|s| - 1]); if s[|s| - 1] < m then s[|s| - 1] else m
  }

  function Highest(s: seq<int>): int
    requires s != []
  {
    if |s| == 1 then s[0]
    else var m := Highest(s[..|s| - 1]); if s[|s| - 1] > m then s[|s| - 1] else m
  }

  /** The 16-bit accumulator cannot wrap for up to 64 converter readings:
      each is below 1024, so their sum stays below 65536. */
  lemma {:induction false} AccumulateNoWrap(samples: seq<AdcSample>)
    requires |samples| <= 64
    ensures Accumulate(samples) == Sum(samples)
    ensures 0 <= Sum(samples) <= 1023 * |samples|
    decreases |samples|
  {
    if samples != [] {
      var n := |samples| - 1;
      AccumulateNoWrap(samples[..n]);
    }
  }

  /** A sum lies between |s| times the smallest and |s| times the largest element. */
  lemma {:induction false} SumBetween(s: seq<int>)
    requires s != []
    ensures |s| * Lowest(s) <= Sum(s) <= |s| * Highest(s)
    decreases |s|
  {
    if |s| > 1 {
      var n := |s| - 1;
      SumBetween(s[..n]);
      ScaleMonotonic(n, Lowest(s), Lowest(s[..n]));
      ScaleMonotonic(n, Highest(s[..n]), Highest(s));
      assert |s| * Lowest(s) == n * Lowest(s) + Lowest(s);
      assert |s| * Highest(s) == n * Highest(s) + Highest(s);
    }
  }

  lemma ScaleMonotonic(n: nat, a: int, b: int)
    requires a <= b
    ensures n * a <= n * b
  {
  }

  /** What `checkLetter` computes from its samples: `measure / 3`. It is the
      floor of the true mean of the three readings, and so lies between the
      smallest and the largest of them. */
  function Measure(samples: seq<AdcSample>): (m: U16)
    requires |samples| == SampleCount
    ensures m == (samples[0] as int + samples[1] + samples[2]) / 3
    ensures Lowest(samples) <= m <= Highest(samples)
  {
    AccumulateNoWrap(samples);
    assert Sum(samples) == samples[0] as int + samples[1] + samples[2] by {
      assert samples[..2][..1] == [samples[0]];
      assert Sum(samples[..1]) == samples[0];
      assert Sum(samples[..2]) == samples[0] as int + samples[1];
    }
    SumBetween(samples);
    Accumulate(samples) / 3
  }

  /** The converter reads of `samples`, in order. */
  function Reads(samples: seq<AdcSample>): seq<IoEvent>
  {
    seq(|samples|, k requires 0 <= k < |samples| => Read(samples[k]))
  }

  /** The I/O a `checkLetter` call performs when the converter yields
      `samples`: IR LED and diode on, the reads, IR LED and diode off. */
  function SampleTrace(samples: seq<AdcSample>): seq<IoEvent>
  {
    [Write(IrLed, High), Write(IrDiode, High)] + Reads(samples) + [Write(IrLed, Low), Write(IrDiode, Low)]
  }

  /** The values read from the converter in `trace`, in order. */
  function ReadValues(trace: seq<IoEvent>): seq<AdcSample>
  {
    if trace == [] then []
    else
      match trace[|trace| - 1]
      case Read(v) => ReadValues(trace[..|trace| - 1]) + [v]
      case Write(_, _) => ReadValues(trace[..|trace| - 1])
  }

  lemma {:induction false} ReadValuesAppend(t: seq<IoEvent>, u: seq<IoEvent>)
    ensures ReadValues(t + u) == ReadValues(t) + ReadValues(u)
    decreases |u|
  {
    if u == [] {
      assert t + u == t;
    } else {
      var n := |u| - 1;
      assert (t + u)[..|t + u| - 1] == t + u[..n];
      assert (t + u)[|t + u| - 1] == u[n];
      ReadValuesAppend(t, u[..n]);
    }
  }

  lemma {:induction false} ReadValuesOfReads(samples: seq<AdcSample>)
    ensures ReadValues(Reads(samples)) == samples
    decreases |samples|
  {
    if samples != [] {
      var n := |samples| - 1;
      assert Reads(samples) == Reads(samples[..n]) + [Read(samples[n])];
      ReadValuesAppend(Reads(samples[..n]), [Read(samples[n])]);
      ReadValuesOfReads(samples[..n]);
    }
  }

  /** A measurement reads the converter exactly once per sample, and the
      values it averages are exactly the values read. */
  lemma SampledValues(samples: seq<AdcSample>)
    ensures ReadValues(SampleTrace(samples)) == samples
  {
    var on := [Write(IrLed, High), Write(IrDiode, High)];
    var off := [Write(IrLed, Low), Write(IrDiode, Low)];
    ReadValuesAppend(on + Reads(samples), off);
    ReadValuesAppend(on, Reads(samples));
    ReadValuesOfReads(samples);
    assert ReadValues(on) == [] by {
      assert on[..1] == [Write(IrLed, High)];
    }
    assert ReadValues(off) == [] by {
      assert off[..1] == [Write(IrLed, Low)];
    }
  }

  /** Every converter read of a measurement happens while both the IR LED and
      the IR diode are driven high, whatever happened before it. */
  lemma SamplingIsLit(before: seq<IoEvent>, samples: seq<AdcSample>, k: nat)
    requires k < |SampleTrace(samples)| && SampleTrace(samples)[k].Read?
    ensures LevelAfter(before + SampleTrace(samples)[..k], IrLed) == High
    ensures LevelAfter(before + SampleTrace(samples)[..k], IrDiode) == High
  {
    var on := [Write(IrLed, High), Write(IrDiode, High)];
    assert 2 <= k < 2 + |samples|;
    var lit := Reads(samples[..k - 2]);
    assert before + SampleTrace(samples)[..k] == (before + on) + lit;
    LevelAfterLeaves(before + on, lit, IrLed);
    LevelAfterLeaves(before + on, lit, IrDiode);
    LevelAfterWrite(before + [Write(IrLed, High)], IrDiode, High, IrLed);
    LevelAfterWrite(before + [Write(IrLed, High)], IrDiode, High, IrDiode);
    LevelAfterWrite(before, IrLed, High, IrLed);
    assert before + on == before + [Write(IrLed, High)] + [Write(IrDiode, High)];
  }

  /** After a measurement the IR LED and the IR diode are both low, and the
      status LED is as it was before. */
  lemma SamplingEndsDark(before: seq<IoEvent>, samples: seq<AdcSample>)
    ensures LevelAfter(before + SampleTrace(samples), IrLed) == Low
    ensures LevelAfter(before + SampleTrace(samples), IrDiode) == Low
    ensures LevelAfter(before + SampleTrace(samples), StatusLed) == LevelAfter(before, StatusLed)
  {
    var body := [Write(IrLed, High), Write(IrDiode, High)] + Reads(samples);
    var t := before + body;
    assert before + SampleTrace(samples) == t + [Write(IrLed, Low)] + [Write(IrDiode, Low)];
    LevelAfterWrite(t + [Write(IrLed, Low)], IrDiode, Low, IrLed);
    LevelAfterWrite(t + [Write(IrLed, Low)], IrDiode, Low, StatusLed);
    LevelAfterWrite(t, IrLed, Low, IrLed);
    LevelAfterWrite(t, IrLed, Low, StatusLed);
    LevelAfterLeaves(before, body, StatusLed);
  }
}
