/** The luminary program: globals, components, the EEPROM and the endless loop. */
module LuminaryCode {
  import opened Machine
  import opened Binary32
  import opened LuminaryModel
  import opened LightController
  import PhotoCell
  import DimmingCurves
  import OnOffByTime
  import DimmingDemo
  import LightOutput

  /** memcpy(&to[at], from, |from|) */
  method CopyInto(to: array<uint8>, at: nat, from: seq<uint8>)
    requires at + |from| <= to.Length
    modifies to
    ensures to[..] == old(to[..at]) + from + old(to[at + |from|..])
  {
    var i := 0;
    while i < |from|
      invariant i <= |from|
      invariant forall k :: 0 <= k < to.Length ==> to[k] == if at <= k < at + i then from[k - at] else old(to[k])
    {
      to[at + i] := from[i];
      i := i + 1;
    }
  }

  class Luminary {
    const nvm: array<uint8>
    const customCurve: array<uint8>
    const photoCell: PhotoCell.Cell
    const dimmingCurves: DimmingCurves.Curves
    const onOffByTime: OnOffByTime.Clock
    const dimmingDemo: DimmingDemo.Demonstration
    const lightController: Controller
    const lightOutput: LightOutput.Output

    var loopDelay: uint16
    var loopsToSend: uint8
    var loopsCount: uint8
    var lastDimming: nat
    var bypassLoopDelay: bool
    var isJoined: bool
    var pendingSyncClock: bool
    var pendingSendTimestamp: bool
    var pendingSendConfig: bool
    var pendingSaveConfig: bool
    var energy: real
    var manualTime: Option<uint32>
    var resetting: bool

    ghost predicate Valid()
      reads this, lightController
    {
      && nvm != customCurve && nvm.Length >= NVM_SIZE && customCurve.Length == 12
      && lightController.photoCell == photoCell && lightController.dimmingCurves == dimmingCurves
      && lightController.onOffByTime == onOffByTime && lightController.dimmingDemo == dimmingDemo
    }

    function Config(): Settings
      reads this, customCurve, dimmingCurves, onOffByTime, lightController
    {
      Settings(loopDelay, loopsToSend, lightController.currentMode, lightController.manualDimLevel,
               dimmingCurves.currentCurve, onOffByTime.Now(), customCurve[..])
    }

    function Now(): State
      reads this, nvm, customCurve, photoCell, dimmingCurves, onOffByTime, dimmingDemo, lightController, lightOutput
    {
      State(Config(), photoCell.Now(), dimmingDemo.Now(), lightOutput.Now(), loopsCount, lastDimming, bypassLoopDelay,
            pendingSyncClock, pendingSendTimestamp, pendingSendConfig, pendingSaveConfig, isJoined, energy,
            manualTime, resetting, nvm[..])
    }

    // ----- EEPROM

    method NvmWrite(address: nat, data: seq<uint8>)
      requires address + |data| <= nvm.Length
      modifies nvm
      ensures nvm[..] == Written(old(nvm[..]), address, data)
    {
      CopyInto(nvm, address, data);
    }

    method SaveSmartcellConfig()
      requires Valid() && Now().Sound()
      modifies this`pendingSaveConfig, nvm
      ensures Valid() && Now() == Saved(old(Now()))
    {
      var saveBuffer := new uint8[10];
      saveBuffer[0] := loopDelay / 0x100;
      saveBuffer[1] := loopDelay % 0x100;
      saveBuffer[2] := loopsToSend;
      saveBuffer[3] := lightController.currentMode;
      saveBuffer[4] := dimmingCurves.currentCurve;
      saveBuffer[5] := Percent(lightController.manualDimLevel);
      saveBuffer[6] := onOffByTime.onHour;
      saveBuffer[7] := onOffByTime.onMinute;
      saveBuffer[8] := onOffByTime.offHour;
      saveBuffer[9] := onOffByTime.offMinute;
      assert saveBuffer[..] == SaveBuffer(Config());
      NvmWrite(DIR_LOOP_DELAY, saveBuffer[..]);
      NvmWrite(DIR_CUSTOM_CURVE, customCurve[..]);
      pendingSaveConfig := false;
    }

    // ----- commands

    /** payloadParser, for a packet that is not empty */
    method PayloadParser(rx: seq<uint8>)
      requires Valid() && Now().Sound() && !resetting && 0 < |rx| < 256
      modifies this, customCurve, dimmingCurves, onOffByTime, lightController
      ensures Valid() && Now() == Parsed(old(Now()), rx)
    {
      if rx[0] as char == 'R' {
        resetting := true;
      } else {
        Obey(rx);
      }
    }

    /** Every other command, known or not. */
    method Obey(rx: seq<uint8>)
      requires Valid() && Now().Sound() && !resetting && 0 < |rx| && rx[0] as char != 'R'
      modifies this`manualTime, this`pendingSendConfig, this`pendingSendTimestamp, this`pendingSyncClock
      modifies this`pendingSaveConfig, this`loopDelay, this`loopsToSend, this`bypassLoopDelay
      modifies customCurve, dimmingCurves, onOffByTime, lightController
      ensures Now() == Parsed(old(Now()), rx)
    {
      ghost var was := Now();
      RequestCommand(rx);
      SettingCommand(rx);
      bypassLoopDelay := true;
      assert Config() == Commanded(was.config, rx);
    }

    /** The cases A, E, H and S. */
    method RequestCommand(rx: seq<uint8>)
      requires 0 < |rx|
      modifies this`manualTime, this`pendingSendConfig, this`pendingSendTimestamp, this`pendingSyncClock
      ensures pendingSendConfig == (old(pendingSendConfig) || rx[0] as char == 'E')
      ensures pendingSendTimestamp == (old(pendingSendTimestamp) || rx[0] as char == 'H')
      ensures pendingSyncClock == (old(pendingSyncClock) || rx[0] as char == 'S')
      ensures manualTime == if rx[0] as char == 'A' && |rx| >= 5 then Some(Word32(rx[1], rx[2], rx[3], rx[4])) else old(manualTime)
    {
      var command := rx[0] as char;
      if command == 'A' {
        if |rx| >= 5 {
          manualTime := Some(Word32(rx[1], rx[2], rx[3], rx[4]));
        }
      } else if command == 'E' {
        pendingSendConfig := true;
      } else if command == 'H' {
        pendingSendTimestamp := true;
      } else if command == 'S' {
        pendingSyncClock := true;
      }
    }

    /** The cases that change settings. */
    method SettingCommand(rx: seq<uint8>)
      requires Valid() && 0 < |rx|
      modifies this`pendingSaveConfig, this`loopDelay, this`loopsToSend
      modifies customCurve, dimmingCurves, onOffByTime, lightController
      ensures Config() == Commanded(old(Config()), rx)
      ensures pendingSaveConfig == (old(pendingSaveConfig) || Saves(rx))
    {
      var command := rx[0] as char;
      if command == 'C' || command == 'J' || command == 'K' {
        CurveCommand(rx);
      } else if command == 'D' || command == 'M' || command == 'O' {
        ModeCommand(rx);
      } else if command == 'T' {
        DelayCommand(rx);
      }
    }

    /** The cases C, J and K of payloadParser. */
    method CurveCommand(rx: seq<uint8>)
      requires Valid() && 0 < |rx| && rx[0] as char in {'C', 'J', 'K'}
      modifies this`pendingSaveConfig, customCurve, dimmingCurves, lightController`currentMode
      ensures Config() == Commanded(old(Config()), rx)
      ensures pendingSaveConfig == (old(pendingSaveConfig) || Saves(rx))
    {
      if rx[0] as char == 'C' {
        if |rx| >= 2 {
          var _ := dimmingCurves.SelectCurve(rx[1]);
          lightController.SetOpMode(AUTO_CURVE);
          pendingSaveConfig := true;
        }
      } else if |rx| >= 7 {
        if rx[0] as char == 'J' {
          CopyInto(customCurve, 0, rx[1..7]);
        } else {
          CopyInto(customCurve, 6, rx[1..7]);
        }
        pendingSaveConfig := true;
      }
    }

    /** The cases D, M and O. */
    method ModeCommand(rx: seq<uint8>)
      requires Valid() && 0 < |rx| && rx[0] as char in {'D', 'M', 'O'}
      modifies this`pendingSaveConfig, onOffByTime, lightController
      ensures Config() == Commanded(old(Config()), rx)
      ensures pendingSaveConfig == (old(pendingSaveConfig) || Saves(rx))
    {
      if rx[0] as char == 'D' {
        if |rx| >= 2 {
          lightController.SetManualDimming(Hundredths(rx[1]));
          lightController.SetOpMode(MANUAL);
          pendingSaveConfig := true;
        }
      } else if rx[0] as char == 'O' {
        if |rx| >= 5 {
          onOffByTime.SetOnOffTime(rx[1], rx[2], rx[3], rx[4]);
          lightController.SetOpMode(AUTO_TIME);
          pendingSaveConfig := true;
        }
      } else if |rx| >= 2 {
        if rx[1] == 0 {
          lightController.SetOpMode(MANUAL);
        } else if rx[1] == 1 {
          lightController.SetOpMode(AUTO_PHOTOCELL);
        } else if rx[1] == 2 {
          lightController.SetOpMode(AUTO_CURVE);
        } else if rx[1] == 3 {
          lightController.SetOpMode(DEMO);
        }
        pendingSaveConfig := true;
      }
    }

    /** The case T. */
    method DelayCommand(rx: seq<uint8>)
      requires Valid() && 0 < |rx| && rx[0] as char == 'T'
      modifies this`pendingSaveConfig, this`loopDelay, this`loopsToSend
      ensures Config() == Commanded(old(Config()), rx)
      ensures pendingSaveConfig == (old(pendingSaveConfig) || Saves(rx))
    {
      if |rx| >= 4 {
        var aux16 := Word16(rx[1], rx[2]);
        if aux16 < 30 {
          aux16 := 30;
        }
        loopDelay := aux16;
        loopsToSend := rx[3];
        pendingSaveConfig := true;
      }
    }

    // ----- start

    /** Variable initialisation and main up to the loop, on the EEPROM found. */
    constructor (nvm: array<uint8>, start: Start)
      requires nvm.Length >= NVM_SIZE
      modifies nvm
      ensures this.nvm == nvm && Valid()
      ensures Now() == Booted(old(nvm[..]), start)
      ensures fresh(customCurve) && fresh(photoCell) && fresh(dimmingCurves) && fresh(onOffByTime)
      ensures fresh(dimmingDemo) && fresh(lightController) && fresh(lightOutput)
    {
      this.nvm := nvm;
      customCurve := new uint8[12](_ => 0);
      var cell := new PhotoCell.Cell(ON_THRESHOLD, OFF_THRESHOLD);
      var curves := new DimmingCurves.Curves(0);
      var clock := new OnOffByTime.Clock(18, 0, 6, 0);
      var demo := new DimmingDemo.Demonstration();
      photoCell, dimmingCurves, onOffByTime, dimmingDemo := cell, curves, clock, demo;
      lightController := new Controller(cell, curves, clock, demo, MANUAL);
      lightOutput := new LightOutput.Output();
      loopDelay, loopsToSend, loopsCount, lastDimming := 30, 20, 0, 0;
      bypassLoopDelay, isJoined, energy, manualTime, resetting := false, false, 0.0, None, false;
      pendingSyncClock, pendingSendTimestamp, pendingSendConfig, pendingSaveConfig := false, false, false, false;
      new;
      assert customCurve[..] == ZERO_CURVE;
      BootUp(start);
    }

    method BootUp(start: Start)
      requires Valid() && Now() == PoweredOn(nvm[..])
      modifies this, nvm, customCurve, dimmingCurves, onOffByTime, lightController
      ensures Valid() && Now() == Booted(old(nvm[..]), start)
    {
      CheckVersion(start);
      RestoreConfig(start);
      isJoined := start.joined;
      loopsCount := loopsToSend;
    }

    /** Writes the factory values when the EEPROM was written by another version. */
    method CheckVersion(start: Start)
      requires nvm.Length >= NVM_SIZE
      modifies nvm
      ensures nvm[..] == Checked(old(nvm[..]), start)
    {
      if start.version {
        if nvm[0] != VERSION[0] || nvm[1] != VERSION[1] || nvm[2] != VERSION[2] {
          assert nvm[..][..3] != VERSION by { assert nvm[..][..3][0] == nvm[0]; }
          NvmWrite(DIR_VERSION, VERSION);
          WriteFactoryValues();
        } else {
          assert nvm[..][..3] == VERSION;
        }
      }
    }

    static lemma FactoryBytes()
      ensures [0x00, 0x1E, 20] + [0x01] + [0x00] + [100] + [18, 0, 6, 0] == SaveBuffer(FACTORY)
    {
      Ends(100);
    }

    method WriteFactoryValues()
      requires nvm.Length >= NVM_SIZE
      modifies nvm
      ensures nvm[..] == SavedNvm(FACTORY, old(nvm[..]))
    {
      ghost var was := nvm[..];
      NvmWrite(DIR_LOOP_DELAY, [0x00, 0x1E, 20]);
      NvmWrite(DIR_OP_MODE, [0x01]);
      AdjacentWrites(was, DIR_LOOP_DELAY, [0x00, 0x1E, 20], [0x01]);
      NvmWrite(DIR_CURVE, [0x00]);
      AdjacentWrites(was, DIR_LOOP_DELAY, [0x00, 0x1E, 20] + [0x01], [0x00]);
      NvmWrite(DIR_MANUAL_DIMMING, [100]);
      AdjacentWrites(was, DIR_LOOP_DELAY, [0x00, 0x1E, 20] + [0x01] + [0x00], [100]);
      NvmWrite(DIR_ON_OFF_TIME, [18, 0, 6, 0]);
      AdjacentWrites(was, DIR_LOOP_DELAY, [0x00, 0x1E, 20] + [0x01] + [0x00] + [100], [18, 0, 6, 0]);
      FactoryBytes();
      NvmWrite(DIR_CUSTOM_CURVE, ZERO_CURVE);
    }

    static lemma AdjacentWrites(nvm: seq<uint8>, address: nat, a: seq<uint8>, b: seq<uint8>)
      requires address + |a| + |b| <= |nvm|
      ensures Written(Written(nvm, address, a), address + |a|, b) == Written(nvm, address, a + b)
    {
    }

    method RestoreConfig(start: Start)
      requires Valid() && customCurve[..] == ZERO_CURVE && Config() == INITIAL
      modifies this`loopDelay, this`loopsToSend, customCurve, dimmingCurves, onOffByTime, lightController
      ensures Config() == Restored(nvm[..], start)
    {
      RestoreLight(start);
      if start.delay {
        loopDelay := Word16(nvm[DIR_LOOP_DELAY], nvm[DIR_LOOP_DELAY + 1]);
        loopsToSend := nvm[DIR_LOOP_DELAY + 2];
      }
      if start.custom {
        CopyInto(customCurve, 0, nvm[DIR_CUSTOM_CURVE..DIR_CUSTOM_CURVE + 12]);
        assert customCurve[..] == nvm[..][DIR_CUSTOM_CURVE..DIR_CUSTOM_CURVE + 12];
      }
      if start.times {
        onOffByTime.SetOnOffTime(nvm[DIR_ON_OFF_TIME], nvm[DIR_ON_OFF_TIME + 1], nvm[DIR_ON_OFF_TIME + 2], nvm[DIR_ON_OFF_TIME + 3]);
      }
    }

    /** The manual level, the mode and the curve. */
    method RestoreLight(start: Start)
      requires Valid() && Config() == INITIAL
      modifies dimmingCurves, lightController
      ensures lightController.manualDimLevel == Restored(nvm[..], start).manual
      ensures lightController.currentMode == Restored(nvm[..], start).mode
      ensures dimmingCurves.currentCurve == Restored(nvm[..], start).curve
    {
      if start.manual {
        lightController.SetManualDimming(Hundredths(nvm[DIR_MANUAL_DIMMING]));
      }
      if start.mode {
        if nvm[DIR_OP_MODE] == AUTO_CURVE || nvm[DIR_OP_MODE] == AUTO_TIME {
          lightController.SetOpMode(AUTO_PHOTOCELL);
        } else {
          lightController.SetOpMode(nvm[DIR_OP_MODE]);
        }
      }
      if start.curve {
        var _ := dimmingCurves.SelectCurve(nvm[DIR_CURVE]);
      }
    }

    // ----- the loop

    /** send_lightStatus */
    method SendLightStatus(dimming: nat, power: real, energy: real, mode: uint8) returns (tx: seq<uint8>)
      requires power >= 0.0 && energy >= 0.0
      ensures tx == LightStatus(dimming, power, energy, mode)
    {
      tx := ['S' as int];
      var aux16: uint16 := Word(power);
      tx := tx + [aux16 / 0x100];
      tx := tx + [aux16 % 0x100];
      tx := tx + [Percent(dimming)];
      aux16 := Word(energy);
      tx := tx + [aux16 / 0x100];
      tx := tx + [aux16 % 0x100];
      tx := tx + [mode];
    }

    /** send_currentTime, when the network is joined */
    method SendCurrentTime(now: nat) returns (tx: seq<uint8>)
      ensures tx == TimeMessage(now)
    {
      tx := ['H' as int];
      tx := tx + [now / 0x100_0000 % 0x100];
      tx := tx + [now / 0x1_0000 % 0x100];
      tx := tx + [now / 0x100 % 0x100];
      tx := tx + [now % 0x100];
    }

    /** send_smartCellConfig, when the network is joined */
    method SendSmartCellConfig(lightMode: uint8, manualDimming: uint8, delay: uint16, send: uint8) returns (tx: seq<uint8>)
      ensures tx == ['E' as int, lightMode, manualDimming, delay / 0x100, delay % 0x100, send]
    {
      tx := ['E' as int];
      tx := tx + [lightMode];
      tx := tx + [manualDimming];
      tx := tx + [delay / 0x100];
      tx := tx + [delay % 0x100];
      tx := tx + [send];
    }

    /** The first sending part. */
    method Prepare(env: Env) returns (replies: seq<seq<uint8>>)
      requires Valid() && Now().Sound()
      modifies this`isJoined, this`pendingSyncClock, this`pendingSendTimestamp, this`pendingSendConfig
      modifies lightController`currentMode
      ensures Now() == Prepared(old(Now()), env)
      ensures replies == Replies(old(Now()), env)
    {
      replies := [];
      if loopsCount >= loopsToSend {
        replies := PrepareUplink(env);
      }
    }

    method PrepareUplink(env: Env) returns (replies: seq<seq<uint8>>)
      requires Valid() && Now().Sound() && Now().Due()
      modifies this`isJoined, this`pendingSyncClock, this`pendingSendTimestamp, this`pendingSendConfig
      modifies lightController`currentMode
      ensures Now() == Prepared(old(Now()), env)
      ensures replies == Replies(old(Now()), env)
    {
      Join(env);
      var time := AnswerTime(env);
      RecoverMode(env);
      var settings := AnswerConfig(env);
      replies := time + settings;
    }

    /** The network and the clock. */
    method Join(env: Env)
      modifies this`isJoined, this`pendingSyncClock
      ensures isJoined == (old(isJoined) || env.joined) && !pendingSyncClock
    {
      if !isJoined {
        isJoined := env.joined;
      }
      pendingSyncClock := false;
    }

    method AnswerTime(env: Env) returns (replies: seq<seq<uint8>>)
      modifies this`pendingSendTimestamp
      ensures !pendingSendTimestamp
      ensures replies == if old(pendingSendTimestamp) && env.joined then [TimeMessage(env.now)] else []
    {
      replies := [];
      if pendingSendTimestamp {
        pendingSendTimestamp := false;
        if env.joined {
          var tx := SendCurrentTime(env.now);
          replies := [tx];
        }
      }
    }

    method AnswerConfig(env: Env) returns (replies: seq<seq<uint8>>)
      requires Valid()
      modifies this`pendingSendConfig
      ensures !pendingSendConfig
      ensures replies == if old(pendingSendConfig) && env.joined then [ConfigMessage(Config())] else []
    {
      replies := [];
      if pendingSendConfig {
        pendingSendConfig := false;
        if env.joined {
          var tx := SendSmartCellConfig(lightController.currentMode, Percent(lightController.manualDimLevel), loopDelay, loopsToSend);
          replies := [tx];
        }
      }
    }

    /** The saved mode, once the clock is right. */
    method RecoverMode(env: Env)
      requires nvm.Length >= NVM_SIZE
      modifies lightController`currentMode
      ensures lightController.currentMode == if env.Synced() && env.modeRead then nvm[..][DIR_OP_MODE] else old(lightController.currentMode)
    {
      if env.Synced() {
        if env.modeRead {
          lightController.SetOpMode(nvm[DIR_OP_MODE]);
        }
      }
    }

    /** Energy and dimming. */
    method Light(env: Env)
      requires Valid() && Now().Sound() && env.Sound()
      modifies this`energy, this`bypassLoopDelay, this`lastDimming, photoCell, dimmingDemo, lightOutput
      ensures Now() == Lit(old(Now()), env)
    {
      energy := energy + env.measured;
      var dimming := lightController.GetDimming(env.Hour(), env.Minute(), env.pin, customCurve);
      lightOutput.SetOutput(dimming);
      assert dimming == LevelOf(old(Now()), env);
      if lastDimming != dimming && !(loopsCount >= loopsToSend) {
        bypassLoopDelay := true;
      }
      lastDimming := dimming;
    }

    /** The second sending part, and the counting of the turn. */
    method Report(env: Env) returns (sent: Option<seq<uint8>>)
      requires env.Sound() && energy >= 0.0
      modifies this`energy, this`loopsCount
      ensures Now() == Counted(old(Now()), env)
      ensures sent == if Sends(old(Now()), env)
                      then Some(LightStatus(lastDimming, env.power, old(energy), lightController.currentMode)) else None
    {
      sent := None;
      if loopsCount >= loopsToSend {
        if isJoined {
          var tx := SendLightStatus(lastDimming, env.power, energy, lightController.currentMode);
          if env.sendOk {
            sent := Some(tx);
            energy := energy - energy.Floor as real;
          }
        }
      }
      if loopsCount >= loopsToSend {
        loopsCount := 0;
      }
      loopsCount := (loopsCount + 1) % 0x100;
    }

    /** One turn of the loop up to the delay; replies are the answers to requests, and sent is the
        status message that got through. */
    method Iterate(env: Env) returns (replies: seq<seq<uint8>>, sent: Option<seq<uint8>>)
      requires Valid() && Now().Sound() && env.Sound() && energy >= 0.0
      modifies this, nvm, photoCell, dimmingDemo, lightController`currentMode, lightOutput
      ensures Valid() && Now() == Iterated(old(Now()), env)
      ensures replies == Replies(SavedIfPending(old(Now())), env)
      ensures Ready(old(Now()), env).energy >= 0.0
      ensures sent == if Sends(Ready(old(Now()), env), env)
                      then Some(LightStatus(Ready(old(Now()), env).lastDimming, env.power, Ready(old(Now()), env).energy,
                                            Ready(old(Now()), env).config.mode)) else None
    {
      ReadySound(Now(), env);
      replies := UpToReport(env);
      sent := Report(env);
    }

    /** Everything before the second sending part. */
    method UpToReport(env: Env) returns (replies: seq<seq<uint8>>)
      requires Valid() && Now().Sound() && env.Sound() && energy >= 0.0
      modifies this, nvm, photoCell, dimmingDemo, lightController`currentMode, lightOutput
      ensures Valid() && Now() == Ready(old(Now()), env) && energy >= 0.0
      ensures replies == Replies(SavedIfPending(old(Now())), env)
    {
      replies := FirstPart(env);
      Light(env);
    }

    /** A pending save, and the first sending part. */
    method FirstPart(env: Env) returns (replies: seq<seq<uint8>>)
      requires Valid() && Now().Sound()
      modifies this`isJoined, this`pendingSyncClock, this`pendingSendTimestamp, this`pendingSendConfig, this`pendingSaveConfig
      modifies nvm, lightController`currentMode
      ensures Valid() && Now() == Prepared(SavedIfPending(old(Now())), env)
      ensures replies == Replies(SavedIfPending(old(Now())), env)
    {
      if pendingSaveConfig {
        SaveSmartcellConfig();
      }
      replies := Prepare(env);
    }

    /** One whole turn of the endless loop. */
    method LoopTurn(env: Env, roll: nat, arrivals: Arrivals) returns (replies: seq<seq<uint8>>, sent: Option<seq<uint8>>, seconds: nat)
      requires Valid() && Now().Sound() && env.Sound() && energy >= 0.0 && !resetting
      requires roll <= 20 && NonEmpty(arrivals)
      requires forall i, j :: 0 <= i < |arrivals| && 0 <= j < |arrivals[i]| ==> |arrivals[i][j]| < 256
      modifies this, nvm, customCurve, photoCell, dimmingCurves, onOffByTime, dimmingDemo, lightController, lightOutput
      ensures Valid() && Now() == Cycled(old(Now()), env, roll, arrivals)
      ensures replies == Replies(SavedIfPending(old(Now())), env)
      ensures Iterated(old(Now()), env).Sound()
      ensures seconds == Seconds(Iterated(old(Now()), env), 0, ThisDelay(Iterated(old(Now()), env).config.loopDelay, roll), arrivals)
      ensures Ready(old(Now()), env).energy >= 0.0
      ensures sent == if Sends(Ready(old(Now()), env), env)
                      then Some(LightStatus(Ready(old(Now()), env).lastDimming, env.power, Ready(old(Now()), env).energy,
                                            Ready(old(Now()), env).config.mode)) else None
    {
      ReadySound(Now(), env);
      replies, sent := Iterate(env);
      seconds := Delay(roll, arrivals);
    }

    /** The packets of one second of the delay; after a software reset none is looked at. */
    method ReceiveAll(rxs: seq<seq<uint8>>)
      requires Valid() && Now().Sound() && forall i :: 0 <= i < |rxs| ==> 0 < |rxs[i]| < 256
      modifies this, customCurve, dimmingCurves, onOffByTime, lightController
      ensures Valid() && Now() == ParsedAll(old(Now()), rxs)
    {
      var i := 0;
      assert rxs[..0] == [];
      while i < |rxs|
        invariant i <= |rxs| && Valid()
        invariant Now() == ParsedAll(old(Now()), rxs[..i])
      {
        assert rxs[..i + 1][..i] == rxs[..i];
        if !resetting {
          PayloadParser(rxs[i]);
        }
        i := i + 1;
      }
      assert rxs[..|rxs|] == rxs;
    }

    /** The delay between two turns, and how many seconds it lasts. */
    method Delay(roll: nat, arrivals: Arrivals) returns (seconds: nat)
      requires Valid() && Now().Sound() && roll <= 20 && NonEmpty(arrivals)
      requires forall i, j :: 0 <= i < |arrivals| && 0 <= j < |arrivals[i]| ==> |arrivals[i][j]| < 256
      modifies this, customCurve, dimmingCurves, onOffByTime, lightController
      ensures Valid() && Now() == Waited(old(Now()), 0, ThisDelay(old(loopDelay), roll), arrivals)
      ensures seconds == Seconds(old(Now()), 0, ThisDelay(old(loopDelay), roll), arrivals)
    {
      seconds := WaitSeconds((loopDelay + roll - 10) % 0x1_0000, arrivals);
    }

    method WaitSeconds(thisDelay: uint16, arrivals: Arrivals) returns (seconds: nat)
      requires Valid() && Now().Sound() && NonEmpty(arrivals)
      requires forall i, j :: 0 <= i < |arrivals| && 0 <= j < |arrivals[i]| ==> |arrivals[i][j]| < 256
      modifies this, customCurve, dimmingCurves, onOffByTime, lightController
      ensures Valid() && Now().Sound() && DelayTo(old(Now()), Now(), 0, thisDelay, arrivals, true, seconds)
    {
      var i, done := 0, false;
      seconds := 0;
      ghost var was := Now();
      while i < thisDelay && !resetting && !done
        invariant i <= thisDelay && Valid() && Now().Sound()
        invariant DelayTo(was, Now(), i, thisDelay, arrivals, done, seconds)
        decreases thisDelay - i, if done then 0 else 1
      {
        ghost var before := Now();
        done := Second(i, thisDelay, arrivals);
        NextSecond(was, before, Now(), i, thisDelay, arrivals, done, seconds);
        if !done {
          seconds := seconds + 1;
        }
        i := i + 1;
      }
      DelayEnds(was, Now(), i, thisDelay, arrivals, done, seconds);
    }

    static lemma DelayEnds(was: State, now: State, i: nat, n: nat, arrivals: Arrivals, done: bool, seconds: nat)
      requires was.Sound() && now.Sound() && NonEmpty(arrivals)
      requires DelayTo(was, now, i, n, arrivals, done, seconds) && (i >= n || now.resetting || done)
      ensures DelayTo(was, now, 0, n, arrivals, true, seconds)
    {
    }

    /** The delay that began in one state is, at second i, in another. */
    static ghost predicate DelayTo(was: State, now: State, i: nat, n: nat, arrivals: Arrivals, done: bool, seconds: nat)
      requires was.Sound() && now.Sound() && NonEmpty(arrivals)
    {
      && Waited(was, 0, n, arrivals) == (if done then now else Waited(now, i, n, arrivals))
      && Seconds(was, 0, n, arrivals) == seconds + (if done then 0 else Seconds(now, i, n, arrivals))
    }

    static lemma NextSecond(was: State, now: State, next: State, i: nat, n: nat, arrivals: Arrivals, done: bool, seconds: nat)
      requires was.Sound() && now.Sound() && next.Sound() && NonEmpty(arrivals)
      requires DelayTo(was, now, i, n, arrivals, false, seconds)
      requires Waited(now, i, n, arrivals) == if done then next else Waited(next, i + 1, n, arrivals)
      requires Seconds(now, i, n, arrivals) == if done then 0 else 1 + Seconds(next, i + 1, n, arrivals)
      ensures DelayTo(was, next, i + 1, n, arrivals, done, if done then seconds else seconds + 1)
    {
    }

    /** One second of it; done when the delay is cut short. */
    method Second(i: nat, thisDelay: uint16, arrivals: Arrivals) returns (done: bool)
      requires Valid() && Now().Sound() && NonEmpty(arrivals) && i < thisDelay && !resetting
      requires forall i, j :: 0 <= i < |arrivals| && 0 <= j < |arrivals[i]| ==> |arrivals[i][j]| < 256
      modifies this, customCurve, dimmingCurves, onOffByTime, lightController
      ensures Valid() && Now().Sound()
      ensures Waited(old(Now()), i, thisDelay, arrivals) == if done then Now() else Waited(Now(), i + 1, thisDelay, arrivals)
      ensures Seconds(old(Now()), i, thisDelay, arrivals) == if done then 0 else 1 + Seconds(Now(), i + 1, thisDelay, arrivals)
    {
      if bypassLoopDelay {
        loopsCount := loopsToSend;
        bypassLoopDelay := false;
        return true;
      }
      if lightController.currentMode == DEMO {
        loopsCount := loopsToSend;
        if i >= DimmingDemo.DEMO_PERIOD {
          return true;
        }
      }
      ReceiveAll(if i < |arrivals| then arrivals[i] else []);
      return false;
    }
  }
}
