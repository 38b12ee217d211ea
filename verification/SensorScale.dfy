/**
  * The raw readings of the SHT3x and what its data sheet says they mean: -45 + 175 * raw / 65535
  * degrees and 100 * raw / 65535 percent. The driver's formulas differ from them, but not by much.
  */
module SensorScale {
  import opened Crc8

  /** The high byte comes first, and every 16-bit number is a reading. */
  lemma WordOrder(high: bv8, low: bv8)
    ensures var w := Word(high, low); 0 <= w <= 0xFFFF && w / 256 == high as int && w % 256 == low as int
  {
  }

  function SheetTemperature(raw: int): real { -45.0 + 175.0 * raw as real / 65535.0 }

  function SheetHumidity(raw: int): real { 100.0 * raw as real / 65535.0 }

  /** Never too low, and less than 0.0027 degrees too high. */
  lemma TemperatureClose(raw: int)
    requires 0 <= raw <= 0xFFFF
    ensures 0.0 <= Temperature(raw) - SheetTemperature(raw) < 0.0027
  {
  }

  /** Off by less than a millionth of a percent. */
  lemma HumidityClose(raw: int)
    requires 0 <= raw <= 0xFFFF
    ensures 0.0 <= Humidity(raw) - SheetHumidity(raw) < 0.000001
  {
  }
}
