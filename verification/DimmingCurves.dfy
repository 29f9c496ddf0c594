/** Dimming curves: two hours to a byte, the even hour in the low nibble. Levels are floats. */
module DimmingCurves {
  import opened Machine
  import opened Binary32

  const STATIC_CURVES: uint8 := 3

  /** curves: residential streets, squares, avenues */
  const CURVES: seq<seq<uint8>> := [
    [0x46, 0x44, 0x44, 0xA6, 0x00, 0x00, 0x00, 0x00, 0x00, 0x80, 0xAA, 0x8A],
    [0x33, 0x33, 0x33, 0xA5, 0x00, 0x00, 0x00, 0x00, 0x00, 0x80, 0xAA, 0x58],
    [0x55, 0x55, 0x55, 0xA8, 0x00, 0x00, 0x00, 0x00, 0x00, 0x80, 0xAA, 0x88]
  ]

  function Selected(index: uint8): uint8 {
    if index > STATIC_CURVES then 0 else index
  }

  /** The tenths of an hour in twelve bytes. */
  function TenthsAt(curve: seq<uint8>, hour: nat): (tenths: nat)
    requires |curve| == 12 && hour <= 23
    ensures tenths <= 15
  {
    var twoValues := curve[hour / 2];
    if hour % 2 != 0 then twoValues / 16 else twoValues % 16
  }

  function LevelAt(curve: seq<uint8>, hour: nat): nat
    requires |curve| == 12 && hour <= 23
  {
    Tenths(TenthsAt(curve, hour))
  }

  /** getDimming: hours past 23 are dark; the custom curve follows the static ones. */
  function Level(current: uint8, customCurve: seq<uint8>, hour: uint8): nat
    requires current <= STATIC_CURVES && |customCurve| == 12
  {
    if hour > 23 then 0
    else LevelAt(if current < STATIC_CURVES then CURVES[current] else customCurve, hour)
  }

  lemma LevelRange(current: uint8, customCurve: seq<uint8>, hour: uint8)
    requires current <= STATIC_CURVES && |customCurve| == 12
    ensures 0 <= Level(current, customCurve, hour) <= ONE + ONE / 2
  {
    if hour <= 23 {
      TenthsRange(TenthsAt(if current < STATIC_CURVES then CURVES[current] else customCurve, hour));
    }
  }

  /** The table of the documentation, in its own terms: level, in hundredths, between two hours. */
  function Documented(curve: nat, hour: nat): nat
    requires curve < 3 && hour <= 23
  {
    if 8 <= hour < 19 then 0
    else if hour == 19 then 80
    else if hour == 20 || hour == 21 || hour == 7 then 100
    else if hour == 22 then [100, 80, 80][curve]
    else if hour == 23 then [80, 50, 80][curve]
    else if hour == 0 then [60, 30, 50][curve]
    else if hour < 6 then [40, 30, 50][curve]
    else [60, 50, 80][curve]
  }

  /** The packed bytes say what the documentation says, for every curve and hour. */
  lemma CurvesAsDocumented(curve: nat, customCurve: seq<uint8>, hour: uint8)
    requires curve < 3 && |customCurve| == 12 && hour <= 23
    ensures Level(curve, customCurve, hour) == Hundredths(Documented(curve, hour))
  {
    TenthsAsDocumented(curve, hour);
    TenthsAreHundredths(TenthsAt(CURVES[curve], hour));
  }

  lemma TenthsAsDocumented(curve: nat, hour: nat)
    requires curve < 3 && hour <= 23
    ensures |CURVES[curve]| == 12 && 10 * TenthsAt(CURVES[curve], hour) == Documented(curve, hour)
  {
    CurveBytes(curve, hour / 2);
  }

  lemma CurveBytes(curve: nat, i: nat)
    requires curve < 3 && i < 12
    ensures |CURVES[curve]| == 12
    ensures CURVES[curve][i] ==
            if i == 0 then [0x46, 0x33, 0x55][curve]
            else if i <= 2 then [0x44, 0x33, 0x55][curve]
            else if i == 3 then [0xA6, 0xA5, 0xA8][curve]
            else if i <= 8 then 0
            else if i == 9 then 0x80
            else if i == 10 then 0xAA
            else [0x8A, 0x58, 0x88][curve]
  {
  }

  // ----- packing a schedule

  /** Two levels, in tenths, in a byte. */
  function PackedByte(even: nat, odd: nat): uint8
    requires even < 16 && odd < 16
  {
    even + 16 * odd
  }

  predicate Schedule(levels: seq<nat>) {
    |levels| == 24 && forall i :: 0 <= i < 24 ==> levels[i] < 16
  }

  function Packed(levels: seq<nat>): seq<uint8>
    requires Schedule(levels)
  {
    seq(12, i requires 0 <= i < 12 => PackedByte(levels[2 * i], levels[2 * i + 1]))
  }

  lemma PackedReadBack(levels: seq<nat>, hour: nat)
    requires Schedule(levels) && hour <= 23
    ensures LevelAt(Packed(levels), hour) == Tenths(levels[hour])
  {
    PackedTenths(levels, hour);
  }

  lemma PackedTenths(levels: seq<nat>, hour: nat)
    requires Schedule(levels) && hour <= 23
    ensures TenthsAt(Packed(levels), hour) == levels[hour]
  {
    assert hour == 2 * (hour / 2) + hour % 2;
    Nibbles(levels[2 * (hour / 2)], levels[2 * (hour / 2) + 1]);
  }

  lemma Nibbles(even: nat, odd: nat)
    requires even < 16 && odd < 16
    ensures PackedByte(even, odd) % 16 == even && PackedByte(even, odd) / 16 == odd
  {
  }

  // ----- the code

  class Curves {
    var currentCurve: uint8

    constructor (index: uint8)
      ensures currentCurve == Selected(index)
    {
      currentCurve := index;
      new;
      var _ := SelectCurve(index);
    }

    method SelectCurve(index: uint8) returns (selected: uint8)
      modifies this
      ensures selected == currentCurve == Selected(index)
    {
      if index > STATIC_CURVES {
        currentCurve := 0;
      } else {
        currentCurve := index;
      }
      return currentCurve;
    }

    method GetDimming(hour: uint8, customCurve: array<uint8>) returns (dimming: nat)
      requires currentCurve <= STATIC_CURVES && customCurve.Length == 12
      ensures dimming == Level(currentCurve, customCurve[..], hour)
    {
      if hour > 23 {
        return 0;
      }
      CurveBytes(if currentCurve < STATIC_CURVES then currentCurve else 0, hour / 2);
      var twoValues: uint8;
      if currentCurve < STATIC_CURVES {
        twoValues := CURVES[currentCurve][hour / 2];
      } else if currentCurve == STATIC_CURVES {
        twoValues := customCurve[hour / 2];
      }
      var value: uint8;
      if hour % 2 != 0 {
        value := twoValues - twoValues % 16;
        value := value / 16;
      } else {
        value := twoValues % 16;
      }
      return Tenths(value);
    }
  }
}
