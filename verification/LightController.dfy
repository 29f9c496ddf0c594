/** The light controller: an operation mode and a manual level choose where the level comes
    from. Levels are floats. */
module LightController {
  import opened Machine
  import opened Binary32
  import PhotoCell
  import DimmingCurves
  import OnOffByTime
  import DimmingDemo

  /** OpMode, an enumeration over a byte: a byte read from memory may be none of them. */
  const MANUAL: uint8 := 0
  const AUTO_PHOTOCELL: uint8 := 1
  const AUTO_CURVE: uint8 := 2
  const DEMO: uint8 := 3
  const AUTO_TIME: uint8 := 4

  /** setManualDimming */
  function Clamped(level: int): nat {
    if level > ONE then ONE else if level < 0 then 0 else level
  }

  /** What the level depends on besides the mode and the manual level. */
  datatype Sources = Sources(photo: PhotoCell.Photo, curve: uint8, times: OnOffByTime.Times, demo: DimmingDemo.Demo) {
    predicate Inv() {
      photo.Inv() && curve <= DimmingCurves.STATIC_CURVES && demo.Inv()
    }
  }

  /** The level in a mode; only the photocell and the demonstration change by being asked. */
  function Level(mode: uint8, manual: nat, s: Sources, customCurve: seq<uint8>, hour: uint8, minute: uint8, average: int): nat
    requires s.Inv() && |customCurve| == 12
  {
    if mode == AUTO_PHOTOCELL then if s.photo.ShouldBeOn(average).lastState then ONE else 0
    else if mode == AUTO_CURVE then DimmingCurves.Level(s.curve, customCurve, hour)
    else if mode == AUTO_TIME then s.times.Level(hour, minute)
    else if mode == DEMO then s.demo.Next().lastValue
    else manual
  }

  function Asked(mode: uint8, s: Sources, average: int): Sources
    requires s.Inv()
  {
    if mode == AUTO_PHOTOCELL then s.(photo := s.photo.ShouldBeOn(average))
    else if mode == DEMO then s.(demo := s.demo.Next())
    else s
  }

  /** Levels never leave 0..1, except that a custom curve may ask for up to one and a half. */
  lemma LevelRange(mode: uint8, manual: nat, s: Sources, customCurve: seq<uint8>, hour: uint8, minute: uint8, average: int)
    requires s.Inv() && |customCurve| == 12 && manual <= ONE
    ensures 0 <= Level(mode, manual, s, customCurve, hour, minute, average) <= ONE + ONE / 2
    ensures Level(mode, manual, s, customCurve, hour, minute, average) > ONE ==> mode == AUTO_CURVE
    ensures Asked(mode, s, average).Inv()
  {
    DimmingCurves.LevelRange(s.curve, customCurve, hour);
    DimmingDemo.NextKeeps(s.demo);
  }

  class Controller {
    const photoCell: PhotoCell.Cell
    const dimmingCurves: DimmingCurves.Curves
    const onOffByTime: OnOffByTime.Clock
    const dimmingDemo: DimmingDemo.Demonstration
    var currentMode: uint8
    var manualDimLevel: nat

    function Inputs(): Sources
      reads photoCell, dimmingCurves, onOffByTime, dimmingDemo
    {
      Sources(photoCell.Now(), dimmingCurves.currentCurve, onOffByTime.Now(), dimmingDemo.Now())
    }

    constructor (photoCell: PhotoCell.Cell, dimmingCurves: DimmingCurves.Curves, onOffByTime: OnOffByTime.Clock,
                 dimmingDemo: DimmingDemo.Demonstration, opMode: uint8)
      ensures this.photoCell == photoCell && this.dimmingCurves == dimmingCurves
      ensures this.onOffByTime == onOffByTime && this.dimmingDemo == dimmingDemo
      ensures currentMode == opMode && manualDimLevel == ONE
    {
      this.photoCell, this.dimmingCurves, this.onOffByTime, this.dimmingDemo := photoCell, dimmingCurves, onOffByTime, dimmingDemo;
      currentMode := opMode;
      manualDimLevel := ONE;
    }

    method SetOpMode(opMode: uint8)
      modifies this`currentMode
      ensures currentMode == opMode
    {
      currentMode := opMode;
    }

    method SetManualDimming(dimLevel: int)
      modifies this`manualDimLevel
      ensures manualDimLevel == Clamped(dimLevel)
    {
      var level := dimLevel;
      if level > ONE {
        level := ONE;
      }
      if level < 0 {
        level := 0;
      }
      manualDimLevel := level;
    }

    /** pin gives the ten photocell samples, should they be taken. */
    method GetDimming(hour: uint8, minute: uint8, pin: seq<nat>, customCurve: array<uint8>) returns (level: nat)
      requires Inputs().Inv() && |pin| == 10 && customCurve.Length == 12
      modifies photoCell, dimmingDemo
      ensures level == Level(currentMode, manualDimLevel, old(Inputs()), customCurve[..], hour, minute, PhotoCell.Average(pin, 10))
      ensures Inputs() == Asked(currentMode, old(Inputs()), PhotoCell.Average(pin, 10))
    {
      if currentMode == AUTO_PHOTOCELL {
        var on := photoCell.ShouldBeOn(pin);
        level := if on then ONE else 0;
      } else if currentMode == AUTO_CURVE {
        level := dimmingCurves.GetDimming(hour, customCurve);
      } else if currentMode == AUTO_TIME {
        level := onOffByTime.GetDimming(hour, minute);
      } else if currentMode == DEMO {
        level := dimmingDemo.GetDimming();
      } else {
        level := manualDimLevel;
      }
    }
  }
}
