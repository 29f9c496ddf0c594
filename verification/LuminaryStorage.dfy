/** Commands, saving and restarting. */
module LuminaryStorage {
  import opened Machine
  import opened Binary32
  import opened LuminaryModel
  import opened LightController
  import DimmingCurves
  import OnOffByTime
  import LightOutput
  import MacEvents

  // ----- save and restart

  lemma SavedBytes(config: Settings, nvm: seq<uint8>)
    requires |nvm| >= NVM_SIZE && |config.customCurve| == 12
    ensures var r := SavedNvm(config, nvm);
      && |r| == |nvm|
      && Word16(r[0x10], r[0x11]) == config.loopDelay && r[0x12] == config.loopsToSend
      && r[DIR_OP_MODE] == config.mode && r[DIR_CURVE] == config.curve && r[DIR_MANUAL_DIMMING] == Percent(config.manual)
      && r[0x16] == config.times.onHour && r[0x17] == config.times.onMinute
      && r[0x18] == config.times.offHour && r[0x19] == config.times.offMinute
      && r[DIR_CUSTOM_CURVE..DIR_CUSTOM_CURVE + 12] == config.customCurve
  {
    var r := SavedNvm(config, nvm);
    assert r[0x10] == SaveBuffer(config)[0] && r[0x11] == SaveBuffer(config)[1];
  }

  /** A save writes its own bytes and nothing else; the version is not among them. */
  lemma SaveTouchesParametersOnly(config: Settings, nvm: seq<uint8>, i: nat)
    requires |nvm| >= NVM_SIZE && |config.customCurve| == 12 && i < |nvm|
    ensures !(DIR_LOOP_DELAY <= i < NVM_SIZE) ==> SavedNvm(config, nvm)[i] == nvm[i]
    ensures VersionMatches(SavedNvm(config, nvm)) <==> VersionMatches(nvm)
  {
    assert SavedNvm(config, nvm)[..3] == nvm[..3];
  }

  /** Start with every parameter readable. */
  predicate Readable(start: Start) {
    start.delay && start.manual && start.mode && start.curve && start.custom && start.times
  }

  /** The manual level after a save and a restart: the percentage that was saved, as a float. */
  function Restarted(manual: nat): nat {
    Clamped(Hundredths(Percent(manual)))
  }

  /** Saving and restarting brings back the configuration, except that the modes that need the
      clock come up as photocell and that the manual level has gone through its percentage. */
  lemma SaveThenRestart(s: State, start: Start)
    requires s.Sound() && VersionMatches(s.nvm) && Readable(start)
    ensures Booted(Saved(s).nvm, start).config
         == s.config.(mode := ModeUntilSynced(s.config.mode), manual := Restarted(s.config.manual))
    ensures Booted(Saved(s).nvm, start).nvm == Saved(s).nvm
    ensures Booted(Saved(s).nvm, start).Due()
  {
    SavedBytes(s.config, s.nvm);
    SaveTouchesParametersOnly(s.config, s.nvm, 0);
  }

  /** Whatever reads fail at the restart: a setting whose read succeeds is the saved one, and any
      other is the one before main. */
  lemma SaveThenAnyRestart(s: State, start: Start)
    requires s.Sound() && VersionMatches(s.nvm)
    ensures var t, c := Booted(Saved(s).nvm, start), s.config;
      && t.config.loopDelay == (if start.delay then c.loopDelay else 30)
      && t.config.loopsToSend == (if start.delay then c.loopsToSend else 20)
      && t.config.mode == (if start.mode then ModeUntilSynced(c.mode) else MANUAL)
      && t.config.manual == (if start.manual then Restarted(c.manual) else ONE)
      && t.config.curve == (if start.curve then c.curve else 0)
      && t.config.times == (if start.times then c.times else OnOffByTime.Times(18, 0, 6, 0))
      && t.config.customCurve == (if start.custom then c.customCurve else ZERO_CURVE)
  {
    SavedBytes(s.config, s.nvm);
    SaveTouchesParametersOnly(s.config, s.nvm, 0);
  }

  lemma HundredthsClamped(n: nat)
    requires n <= 255
    ensures Clamped(Hundredths(n)) == Hundredths(if n < 100 then n else 100)
  {
    Ends(100);
    if n < 100 {
      HundredthsOrder(n, 100);
    } else {
      HundredthsAbove(n);
    }
  }

  /** Two of the hundredths lose one: their float times 100 is a little less than they are. */
  lemma LevelRestarted(n: nat)
    requires n <= 100
    ensures Restarted(Hundredths(n)) == Hundredths(if n == 53 || n == 59 then n - 1 else n)
    ensures Restarted(Hundredths(n)) == Hundredths(n) <==> n != 53 && n != 59
  {
    PercentHundredths(n);
    HundredthsClamped(Percent(Hundredths(n)));
    if n == 53 || n == 59 {
      HundredthsOrder(n - 1, n);
    }
  }

  /** With the manual level at n hundredths, as it always is, every setting but a clock mode
      survives a save and a restart exactly when n is neither 53 nor 59. */
  lemma SettingsSurvive(s: State, start: Start, n: nat)
    requires s.Sound() && VersionMatches(s.nvm) && Readable(start)
    requires n <= 100 && s.config.manual == Hundredths(n)
    ensures Booted(Saved(s).nvm, start).config == s.config.(mode := ModeUntilSynced(s.config.mode)) <==> n != 53 && n != 59
  {
    SaveThenRestart(s, start);
    LevelRestarted(n);
  }

  /** The command to dim to 53 percent, saved, comes back as 52 percent. */
  lemma FiftyThree(s: State, start: Start)
    requires s.Sound() && !s.resetting && VersionMatches(s.nvm) && Readable(start)
    ensures Parsed(s, ['D' as int, 53]).Sound() && Parsed(s, ['D' as int, 53]).config.manual == Hundredths(53)
    ensures Booted(Saved(Parsed(s, ['D' as int, 53])).nvm, start).config.manual == Hundredths(52) < Hundredths(53)
  {
    ParsedSound(s, ['D' as int, 53]);
    HundredthsClamped(53);
    HundredthsOrder(52, 53);
    LevelRestarted(53);
    SaveThenRestart(Parsed(s, ['D' as int, 53]), start);
  }

  // ----- the mode after a restart

  datatype Turn = Turn(env: Env, roll: nat, arrivals: Arrivals) {
    predicate Sound() {
      env.Sound() && roll <= 20 && NonEmpty(arrivals)
    }

    /** None of the commands that arrive asks for a save. */
    predicate SavesNothing()
      requires NonEmpty(arrivals)
    {
      forall i, j :: 0 <= i < |arrivals| && 0 <= j < |arrivals[i]| ==> !Saves(arrivals[i][j])
    }
  }

  predicate SoundTurns(turns: seq<Turn>) {
    forall i :: 0 <= i < |turns| ==> turns[i].Sound()
  }

  function Turned(s: State, turns: seq<Turn>): (t: State)
    requires s.Sound() && SoundTurns(turns)
    ensures t.Sound()
  {
    if turns == [] then s
    else
      var last := turns[|turns| - 1];
      Cycled(Turned(s, turns[..|turns| - 1]), last.env, last.roll, last.arrivals)
  }

  lemma TurnedMore(s: State, turns: seq<Turn>)
    requires s.Sound() && SoundTurns(turns) && turns != []
    ensures var last := turns[|turns| - 1];
      last.Sound() && Turned(s, turns) == Cycled(Turned(s, turns[..|turns| - 1]), last.env, last.roll, last.arrivals)
  {
  }

  lemma ParsedAlone(s: State, rx: seq<uint8>)
    requires s.Sound() && rx != []
    ensures ParsedAll(s, [rx]) == Parsed(s, rx)
  {
    var none: seq<seq<uint8>> := [];
    assert [rx][..0] == none;
    assert ParsedAll(s, none) == s;
  }

  lemma {:induction false} QuietParsing(s: State, rxs: seq<seq<uint8>>)
    requires s.Sound() && forall i :: 0 <= i < |rxs| ==> rxs[i] != [] && !Saves(rxs[i])
    ensures ParsedAll(s, rxs).config == s.config && ParsedAll(s, rxs).pendingSave == s.pendingSave
    decreases |rxs|
  {
    if rxs != [] {
      QuietParsing(s, rxs[..|rxs| - 1]);
    }
  }

  lemma {:induction false} QuietWaiting(s: State, i: nat, n: nat, arrivals: Arrivals)
    requires s.Sound() && NonEmpty(arrivals)
    requires forall k, j :: 0 <= k < |arrivals| && 0 <= j < |arrivals[k]| ==> !Saves(arrivals[k][j])
    ensures Waited(s, i, n, arrivals).config == s.config && Waited(s, i, n, arrivals).pendingSave == s.pendingSave
    decreases n - i
  {
    if GoesOn(s, i, n) {
      var t := Counting(s);
      QuietParsing(t, ArrivalsAt(arrivals, i));
      QuietWaiting(ParsedAll(t, ArrivalsAt(arrivals, i)), i + 1, n, arrivals);
    }
  }

  /** The turn is an uplink turn with the clock right and the saved mode readable. */
  predicate Recovers(s: State, turn: Turn) {
    !s.resetting && s.Due() && turn.env.Synced() && turn.env.modeRead
  }

  lemma QuietTurn(s: State, turn: Turn)
    requires s.Sound() && turn.Sound() && turn.SavesNothing() && !s.pendingSave
    ensures var t := Cycled(s, turn.env, turn.roll, turn.arrivals);
      && !t.pendingSave && t.nvm == s.nvm
      && t.config == s.config.(mode := if Recovers(s, turn) then s.nvm[DIR_OP_MODE] else s.config.mode)
  {
    if !s.resetting {
      ReadySound(s, turn.env);
      var t := Iterated(s, turn.env);
      QuietWaiting(t, 0, ThisDelay(t.config.loopDelay, turn.roll), turn.arrivals);
    }
  }

  /** Some turn so far was such a turn. */
  predicate Recovered(s: State, turns: seq<Turn>)
    requires s.Sound() && SoundTurns(turns)
  {
    turns != [] &&
    (Recovered(s, turns[..|turns| - 1]) || Recovers(Turned(s, turns[..|turns| - 1]), turns[|turns| - 1]))
  }

  predicate SaveNothing(turns: seq<Turn>)
    requires SoundTurns(turns)
  {
    forall i :: 0 <= i < |turns| ==> turns[i].SavesNothing()
  }

  /** As long as nothing is saved, the mode stays what it was at the start until the first
      synced uplink turn and is the saved mode from then on; nothing else changes. */
  lemma {:induction false} ModeAfter(s: State, turns: seq<Turn>)
    requires s.Sound() && SoundTurns(turns) && !s.pendingSave && SaveNothing(turns)
    ensures Turned(s, turns).nvm == s.nvm && !Turned(s, turns).pendingSave
    ensures Turned(s, turns).config == s.config.(mode := if Recovered(s, turns) then s.nvm[DIR_OP_MODE] else s.config.mode)
    decreases |turns|
  {
    if turns != [] {
      var n := |turns| - 1;
      ModeAfter(s, turns[..n]);
      QuietTurn(Turned(s, turns[..n]), turns[n]);
    }
  }

  lemma {:induction false} RecoveredAtOnce(s: State, turns: seq<Turn>)
    requires s.Sound() && SoundTurns(turns) && turns != [] && Recovers(s, turns[0])
    ensures Recovered(s, turns)
    decreases |turns|
  {
    if |turns| == 1 {
      assert turns[..0] == [];
    } else {
      RecoveredAtOnce(s, turns[..|turns| - 1]);
    }
  }

  /** A saved mode is back at the end of the first turn after a restart, if that turn finds the
      clock right, and stays. */
  lemma ModeRecovered(s: State, start: Start, turns: seq<Turn>)
    requires s.Sound() && VersionMatches(s.nvm) && Readable(start)
    requires SoundTurns(turns) && SaveNothing(turns) && turns != []
    requires turns[0].env.Synced() && turns[0].env.modeRead
    ensures Booted(Saved(s).nvm, start).Sound()
    ensures Turned(Booted(Saved(s).nvm, start), turns).config == s.config.(manual := Restarted(s.config.manual))
  {
    SaveThenRestart(s, start);
    SavedBytes(s.config, s.nvm);
    var b := Booted(Saved(s).nvm, start);
    RecoveredAtOnce(b, turns);
    ModeAfter(b, turns);
  }

  // ----- repeated commands

  /** Every command is idempotent, on the settings and on the requests it leaves. */
  lemma ParsedTwice(s: State, rx: seq<uint8>)
    requires s.Sound() && rx != []
    ensures Parsed(s, rx).Sound() && Parsed(Parsed(s, rx), rx) == Parsed(s, rx)
  {
    ParsedSound(s, rx);
    if rx[0] as char == 'J' && |rx| >= 7 {
      MergedTwice(s.config.customCurve, rx[1..7], 0);
    }
    if rx[0] as char == 'K' && |rx| >= 7 {
      MergedTwice(s.config.customCurve, rx[1..7], 6);
    }
  }

  lemma MergedTwice(curve: seq<uint8>, part: seq<uint8>, at: nat)
    requires |curve| == 12 && |part| == 6 && at <= 6
    ensures MergedCurve(MergedCurve(curve, part, at), part, at) == MergedCurve(curve, part, at)
  {
  }

  /** The receive callback. */
  function Received(s: State, rx: seq<uint8>): State {
    if s.Sound() && rx != [] then Parsed(s, rx) else s
  }

  /** Over any run of MAC events, the stale packets that the radio hands over again leave the
      configuration, and every pending request, as if each packet had been handed over once. */
  lemma StalePacketsHarmless(s: State, events: seq<MacEvents.MacEvent>)
    ensures MacEvents.AfterDeliveries(Received, s, events) == MacEvents.AfterPackets(Received, s, events)
  {
    forall c: State, p: seq<uint8>
      ensures Received(Received(c, p), p) == Received(c, p)
    {
      if c.Sound() && p != [] {
        ParsedTwice(c, p);
      }
    }
    MacEvents.RedeliveryHarmless(Received, s, events);
  }

  // ----- the custom curve

  /** The two downlinks that carry a schedule. */
  function LowPart(levels: seq<nat>): seq<uint8>
    requires DimmingCurves.Schedule(levels)
  {
    ['J' as int] + DimmingCurves.Packed(levels)[..6]
  }

  function HighPart(levels: seq<nat>): seq<uint8>
    requires DimmingCurves.Schedule(levels)
  {
    ['K' as int] + DimmingCurves.Packed(levels)[6..]
  }

  const SELECT_CUSTOM: seq<uint8> := ['C' as int, 3]

  lemma HalvesMerge(config: Settings, levels: seq<nat>)
    requires |config.customCurve| == 12 && DimmingCurves.Schedule(levels)
    ensures Commanded(Commanded(config, LowPart(levels)), HighPart(levels)) == config.(customCurve := DimmingCurves.Packed(levels))
    ensures Commanded(Commanded(config, HighPart(levels)), LowPart(levels)) == config.(customCurve := DimmingCurves.Packed(levels))
  {
    var packed := DimmingCurves.Packed(levels);
    assert LowPart(levels)[1..7] == packed[..6] && HighPart(levels)[1..7] == packed[6..];
    MergedHalves(config.customCurve, packed);
  }

  lemma MergedHalves(curve: seq<uint8>, packed: seq<uint8>)
    requires |curve| == 12 && |packed| == 12
    ensures MergedCurve(MergedCurve(curve, packed[..6], 0), packed[6..], 6) == packed
    ensures MergedCurve(MergedCurve(curve, packed[6..], 6), packed[..6], 0) == packed
  {
  }

  /** The three downlinks of a schedule. */
  function ScheduleCommands(levels: seq<nat>, lowFirst: bool): seq<seq<uint8>>
    requires DimmingCurves.Schedule(levels)
  {
    if lowFirst then [LowPart(levels), HighPart(levels), SELECT_CUSTOM]
    else [HighPart(levels), LowPart(levels), SELECT_CUSTOM]
  }

  /** A schedule sent in two halves, in either order, and selected, is what the lamp follows
      hour by hour. */
  lemma ScheduleFollowed(s: State, levels: seq<nat>, lowFirst: bool, hour: uint8)
    requires s.Sound() && !s.resetting && DimmingCurves.Schedule(levels) && hour <= 23
    ensures var t := ParsedAll(s, ScheduleCommands(levels, lowFirst));
      && t.config.mode == AUTO_CURVE && t.pendingSave && t.bypass
      && DimmingCurves.Level(t.config.curve, t.config.customCurve, hour) == Tenths(levels[hour])
  {
    ScheduleParsed(s, levels, lowFirst);
    DimmingCurves.PackedReadBack(levels, hour);
  }

  /** The next turn, which saves, and recovers the mode if it is an uplink turn with the clock
      right, lights the lamp with the level that the schedule has for the hour of its clock. */
  lemma ScheduleOnLamp(s: State, levels: seq<nat>, lowFirst: bool, env: Env)
    requires s.Sound() && !s.resetting && DimmingCurves.Schedule(levels) && env.Sound()
    ensures var t := ParsedAll(s, ScheduleCommands(levels, lowFirst));
      && Ready(t, env).config == t.config
      && Ready(t, env).lamp == LightOutput.Driven(Tenths(levels[env.Hour()]))
  {
    ScheduleParsed(s, levels, lowFirst);
    var t := ParsedAll(s, ScheduleCommands(levels, lowFirst));
    SavedBytes(t.config, t.nvm);
    PreparedSchedule(Saved(t), env);
    DimmingCurves.PackedReadBack(levels, env.Hour());
  }

  lemma PreparedSchedule(s: State, env: Env)
    requires s.Sound() && s.nvm[DIR_OP_MODE] == s.config.mode
    ensures Prepared(s, env).config == s.config
  {
  }

  lemma ScheduleParsed(s: State, levels: seq<nat>, lowFirst: bool)
    requires s.Sound() && !s.resetting && DimmingCurves.Schedule(levels)
    ensures ParsedAll(s, ScheduleCommands(levels, lowFirst))
         == s.(config := s.config.(customCurve := DimmingCurves.Packed(levels), curve := 3, mode := AUTO_CURVE),
               pendingSave := true, bypass := true)
  {
    var first, second := if lowFirst then LowPart(levels) else HighPart(levels), if lowFirst then HighPart(levels) else LowPart(levels);
    HalvesMerge(s.config, levels);
    ParsedSetting(s, first);
    ParsedSetting(Parsed(s, first), second);
    ParsedSetting(Parsed(Parsed(s, first), second), SELECT_CUSTOM);
    ParsedThree(s, first, second, SELECT_CUSTOM);
  }

  lemma ParsedSetting(s: State, rx: seq<uint8>)
    requires s.Sound() && !s.resetting && rx != [] && Saves(rx)
    ensures Parsed(s, rx) == s.(config := Commanded(s.config, rx), pendingSave := true, bypass := true)
    ensures Parsed(s, rx).Sound()
  {
    ParsedSound(s, rx);
  }

  lemma ParsedThree(s: State, a: seq<uint8>, b: seq<uint8>, c: seq<uint8>)
    requires s.Sound() && a != [] && b != [] && c != []
    ensures Parsed(s, a).Sound() && Parsed(Parsed(s, a), b).Sound()
    ensures ParsedAll(s, [a, b, c]) == Parsed(Parsed(Parsed(s, a), b), c)
  {
    ParsedSound(s, a);
    ParsedSound(Parsed(s, a), b);
    var all := [a, b, c];
    assert all[..2] == [a, b] && [a, b][..1] == [a];
    var none: seq<seq<uint8>> := [];
    assert [a][..0] == none;
    assert ParsedAll(s, none) == s;
    assert ParsedAll(s, [a]) == Parsed(s, a);
    assert ParsedAll(s, [a, b]) == Parsed(Parsed(s, a), b);
  }
}
