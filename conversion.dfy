/**
 * Conversions of raw DL485D4 register words into temperatures.
 * Python's `/` on integers below 2^53 divided by 16 is exact, so the
 * DS18B20 result is modelled as a Dafny `real`.
 */
module Conversion {

  /** Offset between the microcontroller's raw reading and degrees Celsius. */
  const MicroOffset: int := 270 - 25

  /** `get_temp_micro`: the raw reading shifted by the calibration offset. */
  function TempMicro(data: int): (t: int)
    ensures MicroRaw(t) == data
  {
    data - 270 + 25
  }

  /** The raw reading that the microcontroller reports for a temperature. */
  function MicroRaw(t: int): (data: int)
  {
    t + MicroOffset
  }

  /** A reading and its temperature are inverse conversions of each other. */
  lemma TempMicroRoundTrip(data: int, t: int)
    ensures TempMicro(MicroRaw(t)) == t
    ensures MicroRaw(TempMicro(data)) == data
  {
  }

  /** Strictly increasing in the reading; 270 is 25 degrees. */
  lemma TempMicroMonotonic(d1: int, d2: int)
    ensures d1 < d2 <==> TempMicro(d1) < TempMicro(d2)
    ensures TempMicro(270) == 25
  {
  }

  /** The largest magnitude a 16-bit DS18B20 word decodes to. */
  const Ds18b20Max: real := 32767.0 / 16.0

  /**
   * `get_temp_ds18b20`: a word at or above 32768 decodes as
   * (65535 - word) / 16, any other as word / 16. For every 16-bit word
   * the result is a whole number of sixteenths in [0, 32767/16]; the sign
   * of a negative reading is not carried in the result.
   */
  function TempDs18b20(data: int): (t: real)
    ensures 0 <= data <= 65535 ==> 0.0 <= t <= Ds18b20Max
    ensures (16.0 * t).Floor as real == 16.0 * t
  {
    var sixteenths := if data >= 32768 then 65535 - data else data;
    assert 16.0 * (sixteenths as real / 16.0) == sixteenths as real;
    sixteenths as real / 16.0
  }

  /** The upper half of the word range mirrors the lower half. */
  lemma Ds18b20Mirror(d: int)
    requires 0 <= d < 32768
    ensures TempDs18b20(65535 - d) == TempDs18b20(d)
  {
  }

  /** Increasing on the lower half of the word range, decreasing on the upper. */
  lemma Ds18b20Monotonic(d1: int, d2: int)
    requires 0 <= d1 < d2 <= 65535
    ensures d2 < 32768 ==> TempDs18b20(d1) < TempDs18b20(d2)
    ensures 32768 <= d1 ==> TempDs18b20(d1) > TempDs18b20(d2)
  {
  }

  /** A resolution of 1/16 degree, and the boundary values. */
  lemma Ds18b20Examples()
    ensures TempDs18b20(0) == 0.0 && TempDs18b20(16) == 1.0 && TempDs18b20(1) == 0.0625
    ensures TempDs18b20(65535) == 0.0 && TempDs18b20(32768) == 2047.9375
    ensures TempDs18b20(32767) == Ds18b20Max
  {
  }
}
