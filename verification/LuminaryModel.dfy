/** The luminary firmware as a function on its state: RAM, radio side effects left out, and the
    EEPROM. The code in LuminaryCode is proved against these functions; what they guarantee is
    proved in the modules after it. Levels are floats. */
module LuminaryModel {
  import opened Machine
  import opened Binary32
  import opened LightController
  import PhotoCell
  import DimmingCurves
  import OnOffByTime
  import DimmingDemo
  import LightOutput

  // ----- EEPROM

  const VERSION: seq<uint8> := [2, 6, 4]
  const DIR_VERSION: nat := 0x00
  const DIR_LOOP_DELAY: nat := 0x10
  const DIR_OP_MODE: nat := 0x13
  const DIR_CURVE: nat := 0x14
  const DIR_MANUAL_DIMMING: nat := 0x15
  const DIR_ON_OFF_TIME: nat := 0x16
  const DIR_CUSTOM_CURVE: nat := 0x1A
  const NVM_SIZE: nat := 0x26

  function Written(nvm: seq<uint8>, address: nat, data: seq<uint8>): (r: seq<uint8>)
    requires address + |data| <= |nvm|
    ensures |r| == |nvm|
    ensures forall i :: 0 <= i < |nvm| ==> r[i] == if address <= i < address + |data| then data[i - address] else nvm[i]
  {
    nvm[..address] + data + nvm[address + |data|..]
  }

  // ----- state

  /** What is configured from outside and kept over a restart. */
  datatype Settings = Settings(
    loopDelay: uint16,
    loopsToSend: uint8,
    mode: uint8,
    manual: nat,
    curve: uint8,
    times: OnOffByTime.Times,
    customCurve: seq<uint8>)

  datatype State = State(
    config: Settings,
    photo: PhotoCell.Photo,
    demo: DimmingDemo.Demo,
    lamp: LightOutput.Lamp,
    loopsCount: uint8,
    lastDimming: nat,
    bypass: bool,
    pendingSync: bool,
    pendingTimestamp: bool,
    pendingConfig: bool,
    pendingSave: bool,
    isJoined: bool,
    energy: real,
    manualTime: Option<uint32>,
    resetting: bool,
    nvm: seq<uint8>)
  {
    function Sources(): Sources {
      LightController.Sources(photo, config.curve, config.times, demo)
    }

    /** The sizes and ranges that keep every step defined. */
    predicate Sound() {
      && |nvm| >= NVM_SIZE && |config.customCurve| == 12
      && config.manual <= ONE && Sources().Inv()
    }

    /** The uplink is due. */
    predicate Due() {
      loopsCount >= config.loopsToSend
    }
  }

  // ----- downlink commands

  function MergedCurve(curve: seq<uint8>, part: seq<uint8>, at: nat): (r: seq<uint8>)
    requires |curve| == 12 && |part| == 6 && at <= 6
    ensures |r| == 12
  {
    curve[..at] + part + curve[at + 6..]
  }

  /** What a command does to the settings. */
  function Commanded(config: Settings, rx: seq<uint8>): Settings
    requires rx != [] && |config.customCurve| == 12
  {
    match rx[0] as char
    case 'C' => if |rx| < 2 then config else config.(curve := DimmingCurves.Selected(rx[1]), mode := AUTO_CURVE)
    case 'D' => if |rx| < 2 then config else config.(manual := Clamped(Hundredths(rx[1])), mode := MANUAL)
    case 'J' => if |rx| < 7 then config else config.(customCurve := MergedCurve(config.customCurve, rx[1..7], 0))
    case 'K' => if |rx| < 7 then config else config.(customCurve := MergedCurve(config.customCurve, rx[1..7], 6))
    case 'M' =>
      if |rx| < 2 then config
      else if rx[1] == 0 then config.(mode := MANUAL)
      else if rx[1] == 1 then config.(mode := AUTO_PHOTOCELL)
      else if rx[1] == 2 then config.(mode := AUTO_CURVE)
      else if rx[1] == 3 then config.(mode := DEMO)
      else config
    case 'O' =>
      if |rx| < 5 then config
      else config.(times := OnOffByTime.Times(rx[1], rx[2], rx[3], rx[4]), mode := AUTO_TIME)
    case 'T' =>
      if |rx| < 4 then config
      else
        var delay := Word16(rx[1], rx[2]);
        config.(loopDelay := if delay < 30 then 30 else delay, loopsToSend := rx[3])
    case _ => config
  }

  /** The commands that ask for the settings to be saved. */
  predicate Saves(rx: seq<uint8>)
    requires rx != []
  {
    match rx[0] as char
    case 'C' => |rx| >= 2
    case 'D' => |rx| >= 2
    case 'J' => |rx| >= 7
    case 'K' => |rx| >= 7
    case 'M' => |rx| >= 2
    case 'O' => |rx| >= 5
    case 'T' => |rx| >= 4
    case _ => false
  }

  /** payloadParser; a software reset does not return. */
  function Parsed(s: State, rx: seq<uint8>): State
    requires s.Sound() && rx != []
  {
    if s.resetting then s
    else if rx[0] as char == 'R' then s.(resetting := true)
    else
      s.(config := Commanded(s.config, rx),
         pendingSave := s.pendingSave || Saves(rx),
         pendingConfig := s.pendingConfig || rx[0] as char == 'E',
         pendingTimestamp := s.pendingTimestamp || rx[0] as char == 'H',
         pendingSync := s.pendingSync || rx[0] as char == 'S',
         manualTime := if rx[0] as char == 'A' && |rx| >= 5
                       then Some(Word32(rx[1], rx[2], rx[3], rx[4])) else s.manualTime,
         bypass := true)
  }

  lemma CommandedSound(config: Settings, rx: seq<uint8>)
    requires rx != [] && |config.customCurve| == 12 && config.manual <= ONE && config.curve <= DimmingCurves.STATIC_CURVES
    ensures var r := Commanded(config, rx);
      |r.customCurve| == 12 && r.manual <= ONE && r.curve <= DimmingCurves.STATIC_CURVES
  {
  }

  lemma ParsedSound(s: State, rx: seq<uint8>)
    requires s.Sound() && rx != []
    ensures Parsed(s, rx).Sound() && Parsed(s, rx).nvm == s.nvm
  {
    CommandedSound(s.config, rx);
  }

  function ParsedAll(s: State, rxs: seq<seq<uint8>>): (t: State)
    requires s.Sound() && forall i :: 0 <= i < |rxs| ==> rxs[i] != []
    ensures t.Sound() && t.nvm == s.nvm
  {
    if rxs == [] then s
    else
      var before := ParsedAll(s, rxs[..|rxs| - 1]);
      ParsedSound(before, rxs[|rxs| - 1]);
      Parsed(before, rxs[|rxs| - 1])
  }

  // ----- saving

  function SaveBuffer(config: Settings): seq<uint8> {
    [config.loopDelay / 0x100, config.loopDelay % 0x100, config.loopsToSend, config.mode, config.curve, Percent(config.manual),
     config.times.onHour, config.times.onMinute, config.times.offHour, config.times.offMinute]
  }

  function SavedNvm(config: Settings, nvm: seq<uint8>): seq<uint8>
    requires |nvm| >= NVM_SIZE && |config.customCurve| == 12
  {
    Written(Written(nvm, DIR_LOOP_DELAY, SaveBuffer(config)), DIR_CUSTOM_CURVE, config.customCurve)
  }

  function Saved(s: State): State
    requires s.Sound()
  {
    s.(nvm := SavedNvm(s.config, s.nvm), pendingSave := false)
  }

  // ----- start

  /** Which reads of the EEPROM succeed, and whether the network was joined. */
  datatype Start = Start(version: bool, delay: bool, manual: bool, mode: bool, curve: bool, custom: bool, times: bool, joined: bool)

  /** The floats 0.65 and 0.7. */
  const ON_THRESHOLD: nat := 0x14_cccc_c000_0000_0000_0000_0000_0000_0000_0000
  const OFF_THRESHOLD: nat := 0x16_6666_6000_0000_0000_0000_0000_0000_0000_0000

  lemma ThresholdsAreFloats()
    ensures ON_THRESHOLD == Single(65 * PhotoCell.FULL, 100) && OFF_THRESHOLD == Single(70 * PhotoCell.FULL, 100)
  {
    var unit: nat := 0x2000_0000_0000_0000_0000_0000_0000_0000;
    PhotoCell.UnitIsPower(30);
    RoundedAt(65 * PhotoCell.FULL, 100, 0x100_0000, 125, unit);
    RoundedAt(70 * PhotoCell.FULL, 100, 0x100_0000, 125, unit);
    NearestScaled(65 * 0x100_0000, 100, unit);
    NearestScaled(70 * 0x100_0000, 100, unit);
    NearestIs(65 * 0x100_0000, 100, 0xA6_6666);
    NearestIs(70 * 0x100_0000, 100, 0xB3_3333);
  }

  const ZERO_CURVE: seq<uint8> := [0, 0, 0, 0, 0, 0, 0, 0, 0, 0, 0, 0]

  /** The values of the variables before main. */
  const INITIAL := Settings(30, 20, MANUAL, ONE, 0, OnOffByTime.Times(18, 0, 6, 0), ZERO_CURVE)

  /** The factory values that are written when the version does not match. */
  const FACTORY := Settings(30, 20, AUTO_PHOTOCELL, ONE, 0, OnOffByTime.Times(18, 0, 6, 0), ZERO_CURVE)

  predicate VersionMatches(nvm: seq<uint8>)
    requires |nvm| >= NVM_SIZE
  {
    nvm[..3] == VERSION
  }

  function Checked(nvm: seq<uint8>, start: Start): (r: seq<uint8>)
    requires |nvm| >= NVM_SIZE
    ensures |r| == |nvm|
  {
    if start.version && !VersionMatches(nvm) then SavedNvm(FACTORY, Written(nvm, DIR_VERSION, VERSION)) else nvm
  }

  /** Curves and times wait for the clock to be right. */
  function ModeUntilSynced(mode: uint8): uint8 {
    if mode == AUTO_CURVE || mode == AUTO_TIME then AUTO_PHOTOCELL else mode
  }

  function Restored(nvm: seq<uint8>, start: Start): Settings
    requires |nvm| >= NVM_SIZE
  {
    Settings(
      if start.delay then Word16(nvm[0x10], nvm[0x11]) else INITIAL.loopDelay,
      if start.delay then nvm[0x12] else INITIAL.loopsToSend,
      if start.mode then ModeUntilSynced(nvm[DIR_OP_MODE]) else INITIAL.mode,
      if start.manual then Clamped(Hundredths(nvm[DIR_MANUAL_DIMMING])) else INITIAL.manual,
      if start.curve then DimmingCurves.Selected(nvm[DIR_CURVE]) else INITIAL.curve,
      if start.times then OnOffByTime.Times(nvm[0x16], nvm[0x17], nvm[0x18], nvm[0x19]) else INITIAL.times,
      if start.custom then nvm[DIR_CUSTOM_CURVE..DIR_CUSTOM_CURVE + 12] else INITIAL.customCurve)
  }

  /** The variables before main, over an EEPROM. Thresholds 0.65 and 0.7. */
  function PoweredOn(nvm: seq<uint8>): State {
    State(INITIAL, PhotoCell.Created(ON_THRESHOLD, OFF_THRESHOLD), DimmingDemo.START, LightOutput.Driven(0),
          0, 0, false, false, false, false, false, false, 0.0, None, false, nvm)
  }

  /** Everything in main before the endless loop, which begins with an uplink turn. */
  function Booted(nvm: seq<uint8>, start: Start): State
    requires |nvm| >= NVM_SIZE
  {
    var config := Restored(Checked(nvm, start), start);
    PoweredOn(Checked(nvm, start)).(config := config, loopsCount := config.loopsToSend, isJoined := start.joined)
  }

  // ----- the loop

  /** What one turn of the loop meets: the network, the clock, the EEPROM and the sensors. */
  datatype Env = Env(
    joined: bool,
    now: nat,
    modeRead: bool,
    measured: real,
    pin: seq<nat>,
    power: real,
    sendOk: bool)
  {
    predicate Sound() {
      measured >= 0.0 && power >= 0.0 && |pin| == 10
    }

    /** timeIsSynced */
    predicate Synced() {
      now > 1514764800
    }

    function Hour(): uint8 {
      (now % 0x1_0000_0000 / 3600) % 24
    }

    function Minute(): uint8 {
      (now % 0x1_0000_0000 / 60) % 60
    }
  }

  /** The first sending part: join, clear the requests, recover the saved mode. */
  function Prepared(s: State, env: Env): State
    requires s.Sound()
  {
    if !s.Due() then s
    else
      s.(isJoined := s.isJoined || env.joined,
         pendingSync := false, pendingTimestamp := false, pendingConfig := false,
         config := if env.Synced() && env.modeRead then s.config.(mode := s.nvm[DIR_OP_MODE]) else s.config)
  }

  /** The uplink message of send_currentTime. */
  function TimeMessage(now: nat): seq<uint8> {
    ['H' as int, now / 0x100_0000 % 0x100, now / 0x1_0000 % 0x100, now / 0x100 % 0x100, now % 0x100]
  }

  /** The uplink message of send_smartCellConfig. */
  function ConfigMessage(config: Settings): seq<uint8> {
    ['E' as int, config.mode, Percent(config.manual), config.loopDelay / 0x100, config.loopDelay % 0x100, config.loopsToSend]
  }

  /** The messages that the first sending part sends: the time, and the settings with the mode that
      has just been recovered. */
  function Replies(s: State, env: Env): seq<seq<uint8>>
    requires s.Sound()
  {
    if !s.Due() || !env.joined then []
    else
      (if s.pendingTimestamp then [TimeMessage(env.now)] else [])
      + if s.pendingConfig then [ConfigMessage(Prepared(s, env).config)] else []
  }

  function LevelOf(s: State, env: Env): nat
    requires s.Sound() && env.Sound()
  {
    Level(s.config.mode, s.config.manual, s.Sources(), s.config.customCurve, env.Hour(), env.Minute(), PhotoCell.Average(env.pin, 10))
  }

  /** Measuring, dimming, and asking for an uplink when the level changed. */
  function Lit(s: State, env: Env): State
    requires s.Sound() && env.Sound()
  {
    var level := LevelOf(s, env);
    var sources := Asked(s.config.mode, s.Sources(), PhotoCell.Average(env.pin, 10));
    s.(energy := s.energy + env.measured,
       photo := sources.photo, demo := sources.demo,
       lamp := LightOutput.Driven(level),
       bypass := s.bypass || (s.lastDimming != level && !s.Due()),
       lastDimming := level)
  }

  function Word(x: real): uint16
    requires x >= 0.0
  {
    x.Floor % 0x1_0000
  }

  /** The uplink message of send_lightStatus. */
  function LightStatus(dimming: nat, power: real, energy: real, mode: uint8): seq<uint8>
    requires power >= 0.0 && energy >= 0.0
  {
    ['S' as int, Word(power) / 0x100, Word(power) % 0x100, Percent(dimming), Word(energy) / 0x100, Word(energy) % 0x100, mode]
  }

  /** The energy that a received message reports. */
  function EnergyIn(message: seq<uint8>): nat
    requires |message| == 7
  {
    Word16(message[4], message[5])
  }

  predicate Sends(s: State, env: Env) {
    s.Due() && s.isJoined && env.sendOk
  }

  /** What is sent is taken off the energy counter, and the loop is counted. */
  function Counted(s: State, env: Env): State {
    s.(energy := if Sends(s, env) then s.energy - s.energy.Floor as real else s.energy,
       loopsCount := ((if s.Due() then 0 else s.loopsCount) + 1) % 0x100)
  }

  /** A pending save is carried out first of all. */
  function SavedIfPending(s: State): (t: State)
    requires s.Sound()
    ensures t.Sound()
  {
    if s.pendingSave then Saved(s) else s
  }

  /** The state just before the second sending part. */
  function Ready(s: State, env: Env): State
    requires s.Sound() && env.Sound()
  {
    Lit(Prepared(SavedIfPending(s), env), env)
  }

  /** One turn of the loop, up to the delay. */
  function Iterated(s: State, env: Env): State
    requires s.Sound() && env.Sound()
  {
    Counted(Ready(s, env), env)
  }

  lemma ReadySound(s: State, env: Env)
    requires s.Sound() && env.Sound()
    ensures Ready(s, env).Sound() && |Ready(s, env).nvm| == |s.nvm| && Ready(s, env).lastDimming <= ONE + ONE / 2
    ensures Ready(s, env).loopsCount == s.loopsCount && Ready(s, env).config.loopsToSend == s.config.loopsToSend
  {
    var t := Prepared(SavedIfPending(s), env);
    LevelRange(t.config.mode, t.config.manual, t.Sources(), t.config.customCurve, env.Hour(), env.Minute(), PhotoCell.Average(env.pin, 10));
  }

  // ----- the delay

  /** thisDelay, with roll = rand() % 21 */
  function ThisDelay(loopDelay: uint16, roll: nat): uint16
    requires roll <= 20
  {
    (loopDelay + roll - 10) % 0x1_0000
  }

  /** The packets that arrive during each second of the delay. */
  type Arrivals = seq<seq<seq<uint8>>>

  predicate NonEmpty(arrivals: Arrivals) {
    forall i, j :: 0 <= i < |arrivals| && 0 <= j < |arrivals[i]| ==> arrivals[i][j] != []
  }

  function ArrivalsAt(arrivals: Arrivals, i: nat): seq<seq<uint8>> {
    if i < |arrivals| then arrivals[i] else []
  }

  /** At the start of a second, once the demonstration has asked for an uplink. */
  function Counting(s: State): State {
    if s.config.mode == DEMO then s.(loopsCount := s.config.loopsToSend) else s
  }

  /** The delay goes on through second i. */
  predicate GoesOn(s: State, i: nat, n: nat) {
    i < n && !s.resetting && !s.bypass && !(s.config.mode == DEMO && i >= DimmingDemo.DEMO_PERIOD)
  }

  /** The delay loop from second i on. */
  function Waited(s: State, i: nat, n: nat, arrivals: Arrivals): (t: State)
    requires s.Sound() && NonEmpty(arrivals)
    ensures t.Sound() && t.nvm == s.nvm
    decreases n - i
  {
    if i >= n || s.resetting then s
    else if s.bypass then s.(loopsCount := s.config.loopsToSend, bypass := false)
    else if GoesOn(s, i, n) then Waited(ParsedAll(Counting(s), ArrivalsAt(arrivals, i)), i + 1, n, arrivals)
    else Counting(s)
  }

  /** How many seconds the delay lasts from second i on. */
  function Seconds(s: State, i: nat, n: nat, arrivals: Arrivals): nat
    requires s.Sound() && NonEmpty(arrivals)
    decreases n - i
  {
    if GoesOn(s, i, n) then 1 + Seconds(ParsedAll(Counting(s), ArrivalsAt(arrivals, i)), i + 1, n, arrivals) else 0
  }

  /** One turn of the loop with its delay. */
  function Cycled(s: State, env: Env, roll: nat, arrivals: Arrivals): (t: State)
    requires s.Sound() && env.Sound() && roll <= 20 && NonEmpty(arrivals)
    ensures t.Sound()
  {
    if s.resetting then s
    else
      ReadySound(s, env);
      var t := Iterated(s, env);
      Waited(t, 0, ThisDelay(t.config.loopDelay, roll), arrivals)
  }
}
