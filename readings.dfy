// Wind readings, the "stronger gust" ordering, and the wind-vane mapper that
// turns a raw ADC sample into a compass angle (WeatherMeters::windAdcToAngle).
module Readings {

  /** A wind-vane direction: the raw ADC sample and the angle it maps to; -1 means "no reading". */
  datatype WindDirection = WindDirection(raw: int, angle: int)

  /** An instantaneous wind reading. The firmware's speed is a float; here it is an integer. */
  datatype WindReading = WindReading(speed: int, direction: WindDirection)

  /** The zero-valued reading that `WindReading{}` and `zero()` produce. */
  const ZeroReading := WindReading(0, WindDirection(0, 0))

  /** `a.strongerThan(b)`: strictly faster; equal speeds are not stronger either way. */
  predicate StrongerThan(a: WindReading, b: WindReading): (r: bool)
    ensures r ==> a != b && !(b.speed > a.speed)
    ensures a.speed == b.speed ==> !r
  {
    a.speed > b.speed
  }

  /** Every sample's angle is one the mapper can produce: -1 or a compass angle. */
  predicate SampleAngles(slots: seq<WindReading>) {
    forall i :: 0 <= i < |slots| ==>
      slots[i].direction.angle == -1 || 0 <= slots[i].direction.angle < 360
  }

  /** The sixteen compass angles the vane can report. */
  const AdcAngles: set<int> :=
    {113, 68, 90, 158, 135, 203, 180, 23, 45, 248, 225, 338, 0, 293, 315, 270}

  /** The mapper as the firmware writes it: a first-match chain of ascending thresholds. */
  function WindAdcToAngle(adc: int): (angle: int)
    ensures angle == -1 <==> adc >= 990
    ensures adc < 990 ==> angle in AdcAngles && 0 <= angle < 360
  {
    if adc < 380 then 113
    else if adc < 393 then 68
    else if adc < 414 then 90
    else if adc < 456 then 158
    else if adc < 508 then 135
    else if adc < 551 then 203
    else if adc < 615 then 180
    else if adc < 680 then 23
    else if adc < 746 then 45
    else if adc < 801 then 248
    else if adc < 833 then 225
    else if adc < 878 then 338
    else if adc < 913 then 0
    else if adc < 940 then 293
    else if adc < 967 then 315
    else if adc < 990 then 270
    else -1
  }

  /** One row of the calibration table: samples below `below` (and not below an earlier row) map to `angle`. */
  datatype Threshold = Threshold(below: int, angle: int)

  /** The calibration table behind WindAdcToAngle, in the order the firmware tests it. */
  const AdcTable: seq<Threshold> := [
    Threshold(380, 113), Threshold(393, 68), Threshold(414, 90), Threshold(456, 158),
    Threshold(508, 135), Threshold(551, 203), Threshold(615, 180), Threshold(680, 23),
    Threshold(746, 45), Threshold(801, 248), Threshold(833, 225), Threshold(878, 338),
    Threshold(913, 0), Threshold(940, 293), Threshold(967, 315), Threshold(990, 270)
  ]

  /** Reference first-match lookup over any table; -1 when the sample is past every threshold. */
  function Lookup(table: seq<Threshold>, adc: int): int
  {
    if table == [] then -1
    else if adc < table[0].below then table[0].angle
    else Lookup(table[1..], adc)
  }

  /** Each threshold is strictly above the previous one. */
  predicate Ascending(table: seq<Threshold>) {
    forall i :: 0 < i < |table| ==> table[i - 1].below < table[i].below
  }

  lemma {:induction false} AscendingMonotone(table: seq<Threshold>, i: nat, j: nat)
    requires Ascending(table) && i <= j < |table|
    ensures table[i].below <= table[j].below
    decreases j - i
  {
    if i < j {
      AscendingMonotone(table, i, j - 1);
    }
  }

  /**
   * In an ascending table, Lookup answers with the angle of the unique row whose
   * bracket [previous threshold, this threshold) holds the sample.
   */
  lemma {:induction false} LookupFirstMatch(table: seq<Threshold>, adc: int, k: nat)
    requires Ascending(table) && k < |table|
    requires adc < table[k].below
    requires k == 0 || table[k - 1].below <= adc
    ensures Lookup(table, adc) == table[k].angle
  {
    if k > 0 {
      AscendingMonotone(table, 0, k - 1);
      assert Ascending(table[1..]) by {
        forall i | 0 < i < |table[1..]|
          ensures table[1..][i - 1].below < table[1..][i].below
        {
          assert table[1..][i - 1] == table[i] && table[1..][i] == table[i + 1];
        }
      }
      LookupFirstMatch(table[1..], adc, k - 1);
    }
  }

  /** A sample at or above the last threshold of an ascending table gets -1. */
  lemma {:induction false} LookupPastEnd(table: seq<Threshold>, adc: int)
    requires Ascending(table)
    requires forall i :: 0 <= i < |table| ==> table[i].below <= adc
    ensures Lookup(table, adc) == -1
    decreases |table|
  {
    if table != [] {
      assert Ascending(table[1..]) by {
        forall i | 0 < i < |table[1..]|
          ensures table[1..][i - 1].below < table[1..][i].below
        {
          assert table[1..][i - 1] == table[i] && table[1..][i] == table[i + 1];
        }
      }
      forall i | 0 <= i < |table[1..]| ensures table[1..][i].below <= adc {
        assert table[1..][i] == table[i + 1];
      }
      LookupPastEnd(table[1..], adc);
    }
  }

  lemma AdcTableAscending()
    ensures Ascending(AdcTable)
  {
  }

  lemma FirstMatchBelow615(adc: int)
    requires Ascending(AdcTable) && adc < 615
    ensures WindAdcToAngle(adc) == Lookup(AdcTable, adc)
  {
    var t := AdcTable;
    if adc < 380 { LookupFirstMatch(t, adc, 0); assert WindAdcToAngle(adc) == t[0].angle; }
    else if adc < 393 { LookupFirstMatch(t, adc, 1); assert WindAdcToAngle(adc) == t[1].angle; }
    else if adc < 414 { LookupFirstMatch(t, adc, 2); assert WindAdcToAngle(adc) == t[2].angle; }
    else if adc < 456 { LookupFirstMatch(t, adc, 3); assert WindAdcToAngle(adc) == t[3].angle; }
    else if adc < 508 { LookupFirstMatch(t, adc, 4); assert WindAdcToAngle(adc) == t[4].angle; }
    else if adc < 551 { LookupFirstMatch(t, adc, 5); assert WindAdcToAngle(adc) == t[5].angle; }
    else { LookupFirstMatch(t, adc, 6); assert WindAdcToAngle(adc) == t[6].angle; }
  }

  lemma FirstMatchFrom615(adc: int)
    requires Ascending(AdcTable) && 615 <= adc < 833
    ensures WindAdcToAngle(adc) == Lookup(AdcTable, adc)
  {
    var t := AdcTable;
    if adc < 680 { LookupFirstMatch(t, adc, 7); assert WindAdcToAngle(adc) == t[7].angle; }
    else if adc < 746 { LookupFirstMatch(t, adc, 8); assert WindAdcToAngle(adc) == t[8].angle; }
    else if adc < 801 { LookupFirstMatch(t, adc, 9); assert WindAdcToAngle(adc) == t[9].angle; }
    else { LookupFirstMatch(t, adc, 10); assert WindAdcToAngle(adc) == t[10].angle; }
  }

  lemma FirstMatchFrom833(adc: int)
    requires Ascending(AdcTable) && 833 <= adc
    ensures WindAdcToAngle(adc) == Lookup(AdcTable, adc)
  {
    var t := AdcTable;
    if adc < 878 { LookupFirstMatch(t, adc, 11); assert WindAdcToAngle(adc) == t[11].angle; }
    else if adc < 913 { LookupFirstMatch(t, adc, 12); assert WindAdcToAngle(adc) == t[12].angle; }
    else if adc < 940 { LookupFirstMatch(t, adc, 13); assert WindAdcToAngle(adc) == t[13].angle; }
    else if adc < 967 { LookupFirstMatch(t, adc, 14); assert WindAdcToAngle(adc) == t[14].angle; }
    else if adc < 990 { LookupFirstMatch(t, adc, 15); assert WindAdcToAngle(adc) == t[15].angle; }
    else {
      forall i | 0 <= i < |t| ensures t[i].below <= adc {
        AscendingMonotone(t, i, 15);
      }
      LookupPastEnd(t, adc);
    }
  }

  /**
   * The if-chain is exactly a first-match lookup in the ascending table: every
   * sample gets the angle of the first threshold it is below, or -1 past the last one.
   */
  lemma WindAdcToAngleIsFirstMatch(adc: int)
    ensures Ascending(AdcTable)
    ensures WindAdcToAngle(adc) == Lookup(AdcTable, adc)
  {
    AdcTableAscending();
    if adc < 615 { FirstMatchBelow615(adc); }
    else if adc < 833 { FirstMatchFrom615(adc); }
    else { FirstMatchFrom833(adc); }
  }
}
