/** What holds in every state that commands, loop turns and restarts can reach. */
module LuminaryRuns {
  import opened Machine
  import opened Binary32
  import opened LuminaryModel
  import opened LightController
  import opened LuminaryStorage
  import DimmingCurves
  import OnOffByTime
  import LightOutput
  import PhotoCell

  /** An EEPROM written by this version. */
  predicate GoodNvm(nvm: seq<uint8>) {
    && |nvm| >= NVM_SIZE && VersionMatches(nvm)
    && Word16(nvm[0x10], nvm[0x11]) >= 30 && nvm[DIR_OP_MODE] <= AUTO_TIME
  }

  /** A manual level is a number of hundredths, as commands and the EEPROM give it. */
  ghost predicate GoodLevel(level: nat) {
    exists n: nat :: n <= 100 && level == Hundredths(n)
  }

  lemma ClampedGood(n: nat)
    requires n <= 255
    ensures GoodLevel(Clamped(Hundredths(n))) && Clamped(Hundredths(n)) <= ONE
  {
    HundredthsClamped(n);
  }

  lemma FullGood()
    ensures GoodLevel(ONE)
  {
    Ends(100);
  }

  ghost predicate GoodSettings(config: Settings) {
    && config.loopDelay >= 30 && config.mode <= AUTO_TIME
    && config.curve <= DimmingCurves.STATIC_CURVES && |config.customCurve| == 12
    && config.manual <= ONE && GoodLevel(config.manual)
  }

  /** The outputs follow the level last asked for, clamped. */
  predicate GoodLamp(s: State) {
    s.lamp == LightOutput.Driven(s.lastDimming) && s.lamp.Inv()
  }

  ghost predicate Inv(s: State) {
    s.Sound() && GoodNvm(s.nvm) && GoodSettings(s.config) && GoodLamp(s)
  }

  datatype Input = Loop(turn: Turn) | Restart(start: Start)

  predicate SoundInputs(inputs: seq<Input>) {
    forall i :: 0 <= i < |inputs| ==> inputs[i].Loop? ==> inputs[i].turn.Sound()
  }

  lemma CommandKeeps(config: Settings, rx: seq<uint8>)
    requires GoodSettings(config) && rx != []
    ensures GoodSettings(Commanded(config, rx))
  {
    if rx[0] as char == 'D' && |rx| >= 2 {
      ClampedGood(rx[1]);
    }
  }

  lemma {:induction false} ParsingKeeps(s: State, rxs: seq<seq<uint8>>)
    requires Inv(s) && forall i :: 0 <= i < |rxs| ==> rxs[i] != []
    ensures Inv(ParsedAll(s, rxs))
    decreases |rxs|
  {
    if rxs != [] {
      var front := rxs[..|rxs| - 1];
      ParsingKeeps(s, front);
      CommandKeeps(ParsedAll(s, front).config, rxs[|rxs| - 1]);
    }
  }

  lemma {:induction false} WaitingKeeps(s: State, i: nat, n: nat, arrivals: Arrivals)
    requires Inv(s) && NonEmpty(arrivals)
    ensures Inv(Waited(s, i, n, arrivals))
    decreases n - i
  {
    if GoesOn(s, i, n) {
      var t := Counting(s);
      ParsingKeeps(t, ArrivalsAt(arrivals, i));
      WaitingKeeps(ParsedAll(t, ArrivalsAt(arrivals, i)), i + 1, n, arrivals);
    }
  }

  lemma SavingKeeps(s: State)
    requires Inv(s)
    ensures Inv(Saved(s))
  {
    SavedBytes(s.config, s.nvm);
    SaveTouchesParametersOnly(s.config, s.nvm, 0);
  }

  lemma IterationKeeps(s: State, env: Env)
    requires Inv(s) && env.Sound()
    ensures Inv(Iterated(s, env))
  {
    var saved := SavedIfPending(s);
    SavingKeeps(s);
    ReadySound(s, env);
    LightingKeeps(Prepared(saved, env), env);
  }

  lemma LightingKeeps(s: State, env: Env)
    requires s.Sound() && GoodNvm(s.nvm) && GoodSettings(s.config) && env.Sound()
    ensures Inv(Counted(Lit(s, env), env))
  {
    LevelRange(s.config.mode, s.config.manual, s.Sources(), s.config.customCurve, env.Hour(), env.Minute(),
               PhotoCell.Average(env.pin, 10));
  }

  lemma TurnKeeps(s: State, turn: Turn)
    requires Inv(s) && turn.Sound()
    ensures Inv(Cycled(s, turn.env, turn.roll, turn.arrivals))
  {
    if !s.resetting {
      IterationKeeps(s, turn.env);
      var t := Iterated(s, turn.env);
      WaitingKeeps(t, 0, ThisDelay(t.config.loopDelay, turn.roll), turn.arrivals);
    }
  }

  /** A start from an EEPROM of this version, whatever reads fail. */
  lemma RestartKeeps(nvm: seq<uint8>, start: Start)
    requires GoodNvm(nvm)
    ensures Inv(Booted(nvm, start)) && Booted(nvm, start).nvm == nvm
  {
    if start.manual {
      ClampedGood(nvm[DIR_MANUAL_DIMMING]);
    } else {
      FullGood();
    }
  }

  /** A first start from any other EEPROM, if at least the version could be read. */
  lemma FirstStart(nvm: seq<uint8>, start: Start)
    requires |nvm| >= NVM_SIZE && !VersionMatches(nvm) && start.version
    ensures Inv(Booted(nvm, start))
  {
    var blank := Written(nvm, DIR_VERSION, VERSION);
    assert blank[..3] == VERSION;
    SavedBytes(FACTORY, blank);
    SaveTouchesParametersOnly(FACTORY, blank, 0);
    RestartKeeps(Checked(nvm, start), start);
    assert Booted(nvm, start).nvm == Checked(nvm, start);
  }

  /** What a first start with every read successful comes up with: a loop of 30 seconds, a report
      every 20 loops, the photocell, full light, the first curve, 18:00 to 06:00, and a dark custom
      curve. */
  lemma FactorySettings(nvm: seq<uint8>, start: Start)
    requires |nvm| >= NVM_SIZE && !VersionMatches(nvm) && start.version && Readable(start)
    ensures var c := Booted(nvm, start).config;
      && c.loopDelay == 30 && c.loopsToSend == 20 && c.mode == AUTO_PHOTOCELL && c.manual == Hundredths(100) && c.curve == 0
      && c.times == OnOffByTime.Times(18, 0, 6, 0)
      && |c.customCurve| == 12 && forall i :: 0 <= i < 12 ==> c.customCurve[i] == 0
  {
    SavedBytes(FACTORY, Written(nvm, DIR_VERSION, VERSION));
    Ends(100);
    HundredthsClamped(100);
  }

  function After(s: State, inputs: seq<Input>): (t: State)
    requires s.Sound() && SoundInputs(inputs)
    ensures t.Sound()
    decreases |inputs|
  {
    if inputs == [] then s
    else
      var before := After(s, inputs[..|inputs| - 1]);
      match inputs[|inputs| - 1]
      case Loop(turn) => Cycled(before, turn.env, turn.roll, turn.arrivals)
      case Restart(start) => Booted(before.nvm, start)
  }

  /** Turns and restarts in any order. */
  lemma {:induction false} InputsKeep(s: State, inputs: seq<Input>)
    requires Inv(s) && SoundInputs(inputs)
    ensures Inv(After(s, inputs))
    decreases |inputs|
  {
    if inputs != [] {
      var front := inputs[..|inputs| - 1];
      InputsKeep(s, front);
      match inputs[|inputs| - 1]
      case Loop(turn) => TurnKeeps(After(s, front), turn);
      case Restart(start) => RestartKeeps(After(s, front).nvm, start);
    }
  }

  /** In every state reachable from an EEPROM of another version: the loop delay is at least 30
      seconds, the mode and the curve index are defined ones, the level and the duty cycle are in
      range, and the relay is on exactly when the level asked for is positive. */
  lemma EveryRun(nvm: seq<uint8>, start: Start, inputs: seq<Input>)
    requires |nvm| >= NVM_SIZE && !VersionMatches(nvm) && start.version && SoundInputs(inputs)
    ensures Inv(Booted(nvm, start))
    ensures var s := After(Booted(nvm, start), inputs);
      && s.config.loopDelay >= 30
      && s.config.mode <= AUTO_TIME
      && s.config.curve <= DimmingCurves.STATIC_CURVES
      && 0 <= s.config.manual <= ONE && (exists n: nat :: n <= 100 && s.config.manual == Hundredths(n))
      && 0 <= 100 * s.lamp.duty <= 95 * ONE
      && (s.lamp.relay <==> s.lastDimming > 0)
      && VersionMatches(s.nvm)
  {
    FirstStart(nvm, start);
    InputsKeep(Booted(nvm, start), inputs);
  }

  /** Without the version the EEPROM is used unchecked: the delay is in range exactly when it was
      not read, when the factory values were written, or when what was read is in range. */
  lemma StartDelay(nvm: seq<uint8>, start: Start)
    requires |nvm| >= NVM_SIZE
    ensures Booted(nvm, start).config.loopDelay >= 30 <==>
              || !start.delay
              || (start.version && !VersionMatches(nvm))
              || Word16(nvm[0x10], nvm[0x11]) >= 30
  {
    CheckedDelay(nvm, start);
  }

  /** All of the settings: without the version, the delay and the mode depend on what was in the
      EEPROM; everything else is in range whatever it held. */
  lemma StartSettings(nvm: seq<uint8>, start: Start)
    requires |nvm| >= NVM_SIZE
    ensures GoodSettings(Booted(nvm, start).config) <==>
              || (start.version && !VersionMatches(nvm))
              || ((start.delay ==> Word16(nvm[0x10], nvm[0x11]) >= 30) && (start.mode ==> nvm[DIR_OP_MODE] <= AUTO_TIME))
  {
    StartDelay(nvm, start);
    CheckedMode(nvm, start);
    if start.manual {
      ClampedGood(Checked(nvm, start)[DIR_MANUAL_DIMMING]);
    } else {
      FullGood();
    }
  }

  lemma CheckedMode(nvm: seq<uint8>, start: Start)
    requires |nvm| >= NVM_SIZE
    ensures Checked(nvm, start)[DIR_OP_MODE]
         == if start.version && !VersionMatches(nvm) then FACTORY.mode else nvm[DIR_OP_MODE]
  {
    if start.version && !VersionMatches(nvm) {
      SavedBytes(FACTORY, Written(nvm, DIR_VERSION, VERSION));
    }
  }

  lemma CheckedDelay(nvm: seq<uint8>, start: Start)
    requires |nvm| >= NVM_SIZE
    ensures Word16(Checked(nvm, start)[0x10], Checked(nvm, start)[0x11])
         == if start.version && !VersionMatches(nvm) then FACTORY.loopDelay else Word16(nvm[0x10], nvm[0x11])
  {
    if start.version && !VersionMatches(nvm) {
      SavedBytes(FACTORY, Written(nvm, DIR_VERSION, VERSION));
    }
  }
}
