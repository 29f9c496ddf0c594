/** The downlink commands: what their packets are, what each one does, and that every other packet
    does nothing but cut the delay short. */
module LuminaryCommands {
  import opened Machine
  import opened Binary32
  import opened LuminaryModel
  import opened LightController
  import opened LuminaryStorage
  import DimmingCurves
  import OnOffByTime

  datatype Command =
    | SetTime(timestamp: uint32)
    | SelectCurve(index: uint8)
    | Dim(percent: uint8)
    | AskConfig
    | AskTime
    | CurveLow(part: seq<uint8>)
    | CurveHigh(part: seq<uint8>)
    | SetMode(mode: uint8)
    | SwitchByTime(times: OnOffByTime.Times)
    | Reset
    | SyncClock
    | LoopEvery(delay: uint16, send: uint8)
  {
    predicate Valid() {
      CurveLow? || CurveHigh? ==> |part| == 6
    }
  }

  /** The packet that carries a command; numbers are most significant byte first. */
  function Packet(c: Command): (rx: seq<uint8>)
    requires c.Valid()
    ensures rx != []
  {
    match c
    case SetTime(t) => ['A' as int, t / 0x100_0000, t / 0x1_0000 % 0x100, t / 0x100 % 0x100, t % 0x100]
    case SelectCurve(index) => ['C' as int, index]
    case Dim(percent) => ['D' as int, percent]
    case AskConfig => ['E' as int]
    case AskTime => ['H' as int]
    case CurveLow(part) => ['J' as int] + part
    case CurveHigh(part) => ['K' as int] + part
    case SetMode(mode) => ['M' as int, mode]
    case SwitchByTime(t) => ['O' as int, t.onHour, t.onMinute, t.offHour, t.offMinute]
    case Reset => ['R' as int]
    case SyncClock => ['S' as int]
    case LoopEvery(delay, send) => ['T' as int, delay / 0x100, delay % 0x100, send]
  }

  /** What a command does to the settings. */
  function Set(config: Settings, c: Command): Settings
    requires c.Valid() && |config.customCurve| == 12
  {
    match c
    case SelectCurve(index) => config.(curve := if index <= 3 then index else 0, mode := AUTO_CURVE)
    case Dim(percent) => config.(manual := Hundredths(if percent < 100 then percent else 100), mode := MANUAL)
    case CurveLow(part) => config.(customCurve := part + config.customCurve[6..])
    case CurveHigh(part) => config.(customCurve := config.customCurve[..6] + part)
    case SetMode(mode) => if mode <= DEMO then config.(mode := mode) else config
    case SwitchByTime(times) => config.(times := times, mode := AUTO_TIME)
    case LoopEvery(delay, send) => config.(loopDelay := if delay < 30 then 30 else delay, loopsToSend := send)
    case _ => config
  }

  /** The commands that only ask for something. */
  predicate Asks(c: Command) {
    c.SetTime? || c.AskConfig? || c.AskTime? || c.Reset? || c.SyncClock?
  }

  /** What a command does to a state that is not being reset. */
  function Obeyed(s: State, c: Command): State
    requires s.Sound() && c.Valid()
  {
    if c.Reset? then s.(resetting := true)
    else
      s.(config := Set(s.config, c),
         pendingSave := s.pendingSave || !Asks(c),
         pendingConfig := s.pendingConfig || c.AskConfig?,
         pendingTimestamp := s.pendingTimestamp || c.AskTime?,
         pendingSync := s.pendingSync || c.SyncClock?,
         manualTime := if c.SetTime? then Some(c.timestamp) else s.manualTime,
         bypass := true)
  }

  /** A packet carries a command when it begins with the command's packet. */
  predicate Carries(rx: seq<uint8>, c: Command)
    requires c.Valid()
  {
    Packet(c) <= rx
  }

  lemma SplitWord16(d: uint16)
    ensures d / 0x100 < 0x100 && d % 0x100 < 0x100 && Word16(d / 0x100, d % 0x100) == d
  {
  }

  lemma SplitWord32(t: uint32)
    ensures t / 0x100_0000 < 0x100
    ensures Word32(t / 0x100_0000, t / 0x1_0000 % 0x100, t / 0x100 % 0x100, t % 0x100) == t
  {
    assert t / 0x100_0000 == t / 0x1_0000 / 0x100;
    assert t / 0x100 % 0x100 == t % 0x1_0000 / 0x100 && t % 0x100 == t % 0x1_0000 % 0x100;
    SplitWord16(t / 0x1_0000);
    SplitWord16(t % 0x1_0000);
  }

  /** Whatever follows the command in its packet, the parser does what the command says. */
  lemma CommandObeyed(s: State, c: Command, rx: seq<uint8>)
    requires s.Sound() && !s.resetting && c.Valid() && Carries(rx, c)
    ensures rx != [] && Parsed(s, rx) == Obeyed(s, c)
  {
    Prefix(Packet(c), rx);
    SettingObeyed(s.config, c, rx);
    match c
    case SetTime(t) => SplitWord32(t);
    case _ =>
  }

  lemma Prefix(a: seq<uint8>, rx: seq<uint8>)
    requires a <= rx
    ensures |a| <= |rx| && forall i :: 0 <= i < |a| ==> rx[i] == a[i]
  {
  }

  lemma SettingObeyed(config: Settings, c: Command, rx: seq<uint8>)
    requires |config.customCurve| == 12 && c.Valid() && Carries(rx, c)
    ensures rx != [] && Commanded(config, rx) == Set(config, c)
    ensures Saves(rx) <==> !Asks(c)
  {
    Prefix(Packet(c), rx);
    match c
    case Dim(percent) => HundredthsClamped(percent);
    case LoopEvery(delay, _) => SplitWord16(delay);
    case CurveLow(part) => assert rx[1..7] == part;
    case CurveHigh(part) => assert rx[1..7] == part;
    case _ =>
  }

  /** The command that a packet carries, if it carries one. */
  function CommandIn(rx: seq<uint8>): Option<Command>
    requires rx != []
  {
    match rx[0] as char
    case 'A' => if |rx| < 5 then None else Some(SetTime(Word32(rx[1], rx[2], rx[3], rx[4])))
    case 'C' => if |rx| < 2 then None else Some(SelectCurve(rx[1]))
    case 'D' => if |rx| < 2 then None else Some(Dim(rx[1]))
    case 'E' => Some(AskConfig)
    case 'H' => Some(AskTime)
    case 'J' => if |rx| < 7 then None else Some(CurveLow(rx[1..7]))
    case 'K' => if |rx| < 7 then None else Some(CurveHigh(rx[1..7]))
    case 'M' => if |rx| < 2 then None else Some(SetMode(rx[1]))
    case 'O' => if |rx| < 5 then None else Some(SwitchByTime(OnOffByTime.Times(rx[1], rx[2], rx[3], rx[4])))
    case 'R' => Some(Reset)
    case 'S' => Some(SyncClock)
    case 'T' => if |rx| < 4 then None else Some(LoopEvery(Word16(rx[1], rx[2]), rx[3]))
    case _ => None
  }

  lemma JoinedWord16(hi: uint8, lo: uint8)
    ensures Word16(hi, lo) / 0x100 == hi && Word16(hi, lo) % 0x100 == lo
  {
  }

  lemma JoinedWord32(b3: uint8, b2: uint8, b1: uint8, b0: uint8)
    ensures var t := Word32(b3, b2, b1, b0);
      t / 0x100_0000 == b3 && t / 0x1_0000 % 0x100 == b2 && t / 0x100 % 0x100 == b1 && t % 0x100 == b0
  {
    JoinedWord16(b3, b2);
    JoinedWord16(b1, b0);
    assert Word32(b3, b2, b1, b0) / 0x1_0000 == Word16(b3, b2);
    assert Word32(b3, b2, b1, b0) % 0x1_0000 == Word16(b1, b0);
  }

  lemma CommandInCarried(rx: seq<uint8>)
    requires rx != [] && CommandIn(rx).Some?
    ensures CommandIn(rx).value.Valid() && Carries(rx, CommandIn(rx).value)
  {
    match CommandIn(rx).value
    case SetTime(t) => JoinedWord32(rx[1], rx[2], rx[3], rx[4]);
    case LoopEvery(_, _) => JoinedWord16(rx[1], rx[2]);
    case CurveLow(part) => assert rx[..7] == Packet(CurveLow(part));
    case CurveHigh(part) => assert rx[..7] == Packet(CurveHigh(part));
    case _ =>
  }

  /** A packet that carries no command changes nothing and cuts the delay short. */
  lemma OthersIgnored(s: State, rx: seq<uint8>)
    requires s.Sound() && !s.resetting && rx != []
    requires forall c: Command :: c.Valid() ==> !Carries(rx, c)
    ensures Parsed(s, rx) == s.(bypass := true)
  {
    if CommandIn(rx).Some? {
      CommandInCarried(rx);
    }
  }

  // ----- until the next command, and over a restart

  /** The next turn saves what was set, and no recovery of the mode undoes it. */
  lemma NextTurnKeeps(s: State, c: Command, rx: seq<uint8>, env: Env)
    requires s.Sound() && !s.resetting && c.Valid() && Carries(rx, c) && !Asks(c) && env.Sound()
    ensures rx != [] && Parsed(s, rx).Sound()
    ensures Ready(Parsed(s, rx), env).config == Set(s.config, c)
    ensures Ready(Parsed(s, rx), env).nvm == SavedNvm(Set(s.config, c), s.nvm)
  {
    CommandObeyed(s, c, rx);
    ParsedSound(s, rx);
    SavedBytes(Parsed(s, rx).config, s.nvm);
  }

  /** The settings after a turn and a restart. */
  function Brought(s: State, env: Env, start: Start): Settings
    requires s.Sound() && env.Sound()
  {
    ReadySound(s, env);
    Booted(Ready(s, env).nvm, start).config
  }

  /** The settings that a restart makes of settings that were saved. */
  function ComeUp(config: Settings): Settings {
    config.(mode := ModeUntilSynced(config.mode), manual := Restarted(config.manual))
  }

  /** A restart after that turn brings it back: all of it but a mode that waits for the clock, and
      with the level that the saved percentage makes. */
  lemma RestartKeepsCommand(s: State, c: Command, rx: seq<uint8>, env: Env, start: Start)
    requires s.Sound() && !s.resetting && c.Valid() && Carries(rx, c) && !Asks(c) && env.Sound()
    requires VersionMatches(s.nvm) && Readable(start)
    ensures rx != [] && Parsed(s, rx).Sound()
    ensures Brought(Parsed(s, rx), env, start) == ComeUp(Set(s.config, c))
  {
    NextTurnKeeps(s, c, rx, env);
    CommandObeyed(s, c, rx);
    SaveThenRestart(Parsed(s, rx), start);
  }

  /** A command on its way: heard, in force in the next turn, and back after a restart. */
  predicate RoundTrip(s: State, rx: seq<uint8>, config: Settings, env: Env, start: Start)
    requires s.Sound() && env.Sound() && rx != []
  {
    && Parsed(s, rx).Sound() && Parsed(s, rx).config == config
    && Ready(Parsed(s, rx), env).config == config
    && Brought(Parsed(s, rx), env, start) == ComeUp(config)
  }

  lemma CommandRoundTrip(s: State, c: Command, rx: seq<uint8>, env: Env, start: Start)
    requires s.Sound() && !s.resetting && env.Sound() && VersionMatches(s.nvm) && Readable(start)
    requires c.Valid() && Carries(rx, c) && !Asks(c)
    ensures rx != [] && RoundTrip(s, rx, Set(s.config, c), env, start)
  {
    CommandObeyed(s, c, rx);
    NextTurnKeeps(s, c, rx, env);
    RestartKeepsCommand(s, c, rx, env, start);
  }

  /** The command to loop every d seconds and to send every n loops, for any d from 30 on. */
  lemma LoopEveryRoundTrip(s: State, d: uint16, n: uint8, env: Env, start: Start)
    requires s.Sound() && !s.resetting && d >= 30 && env.Sound() && VersionMatches(s.nvm) && Readable(start)
    ensures RoundTrip(s, ['T' as int, d / 0x100, d % 0x100, n], s.config.(loopDelay := d, loopsToSend := n), env, start)
  {
    CommandRoundTrip(s, LoopEvery(d, n), Packet(LoopEvery(d, n)), env, start);
  }

  /** The four bytes of the times, whatever they are. */
  lemma TimesRoundTrip(s: State, times: OnOffByTime.Times, env: Env, start: Start)
    requires s.Sound() && !s.resetting && env.Sound() && VersionMatches(s.nvm) && Readable(start)
    ensures RoundTrip(s, ['O' as int, times.onHour, times.onMinute, times.offHour, times.offMinute],
                      s.config.(times := times, mode := AUTO_TIME), env, start)
  {
    CommandRoundTrip(s, SwitchByTime(times), Packet(SwitchByTime(times)), env, start);
  }

  /** The four bytes of a timestamp; the clock is set to it, and no setting is. */
  lemma TimestampRoundTrip(s: State, t: uint32)
    requires s.Sound() && !s.resetting
    ensures Parsed(s, ['A' as int, t / 0x100_0000, t / 0x1_0000 % 0x100, t / 0x100 % 0x100, t % 0x100])
         == s.(manualTime := Some(t), bypass := true)
  {
    CommandObeyed(s, SetTime(t), Packet(SetTime(t)));
  }
}
