/** What the lamp shows: in every mode, over runs of turns from a start. */
module LuminaryLamp {
  import opened Machine
  import opened Binary32
  import opened LuminaryModel
  import opened LightController
  import opened LuminaryStorage
  import opened LuminaryCommands
  import opened LuminarySchedule
  import PhotoCell
  import DimmingCurves
  import OnOffByTime
  import DimmingDemo
  import LightOutput

  // ----- what a delay leaves alone

  predicate SameLight(s: State, t: State) {
    t.photo == s.photo && t.demo == s.demo && t.lamp == s.lamp && t.lastDimming == s.lastDimming
  }

  lemma {:induction false} ParsingKeepsLight(s: State, rxs: seq<seq<uint8>>)
    requires s.Sound() && forall i :: 0 <= i < |rxs| ==> rxs[i] != []
    ensures SameLight(s, ParsedAll(s, rxs))
    decreases |rxs|
  {
    if rxs != [] {
      ParsingKeepsLight(s, rxs[..|rxs| - 1]);
    }
  }

  lemma {:induction false} WaitKeepsLight(s: State, i: nat, n: nat, arrivals: Arrivals)
    requires s.Sound() && NonEmpty(arrivals)
    ensures SameLight(s, Waited(s, i, n, arrivals))
    decreases n - i
  {
    if GoesOn(s, i, n) {
      ParsingKeepsLight(Counting(s), ArrivalsAt(arrivals, i));
      WaitKeepsLight(ParsedAll(Counting(s), ArrivalsAt(arrivals, i)), i + 1, n, arrivals);
    }
  }

  /** The light of a turn is what its first half made of it. */
  lemma TurnLight(s: State, turn: Turn)
    requires s.Sound() && turn.Sound() && !s.resetting
    ensures SameLight(Ready(s, turn.env), Cycled(s, turn.env, turn.roll, turn.arrivals))
  {
    ReadySound(s, turn.env);
    var t := Iterated(s, turn.env);
    WaitKeepsLight(t, 0, ThisDelay(t.config.loopDelay, turn.roll), turn.arrivals);
  }

  /** The mode in which a turn lights the lamp. */
  function ModeOf(s: State, turn: Turn): uint8
    requires s.Sound() && turn.Sound()
  {
    Ready(s, turn.env).config.mode
  }

  /** The lamp switched fully on, or off. */
  function Switched(on: bool): LightOutput.Lamp {
    if on then LightOutput.Lamp(ONE, Hundredths(95), true) else LightOutput.Lamp(0, 0, false)
  }

  lemma SwitchedIsDriven(on: bool)
    ensures LightOutput.Driven(if on then ONE else 0) == Switched(on)
  {
    LightOutput.FullDuty();
    LightOutput.DutyRange(0);
  }

  // ----- photocell

  /** The light that the photocell measures in a turn, if it is asked. */
  function Light(turn: Turn): nat
    requires turn.Sound()
  {
    PhotoCell.Average(turn.env.pin, 10)
  }

  /** The turn asks the photocell, and the answer does not depend on what it was before. */
  predicate Decides(s: State, turn: Turn)
    requires s.Sound() && turn.Sound()
  {
    !s.resetting && ModeOf(s, turn) == AUTO_PHOTOCELL && (Light(turn) < ON_THRESHOLD || Light(turn) > OFF_THRESHOLD)
  }

  predicate DecidesAt(s: State, turns: seq<Turn>, i: nat)
    requires s.Sound() && SoundTurns(turns) && i < |turns|
  {
    Decides(Turned(s, turns[..i]), turns[i])
  }

  predicate Programmed(s: State) {
    s.photo.onThreshold == ON_THRESHOLD && s.photo.offThreshold == OFF_THRESHOLD
  }

  lemma PhotocellTurn(s: State, turn: Turn)
    requires s.Sound() && turn.Sound() && Programmed(s)
    ensures var t := Cycled(s, turn.env, turn.roll, turn.arrivals);
      && Programmed(t)
      && t.photo.lastState == if Decides(s, turn) then Light(turn) < ON_THRESHOLD else s.photo.lastState
  {
    if !s.resetting {
      TurnLight(s, turn);
      PhotocellAsked(s, turn.env);
    }
  }

  lemma PhotocellAsked(s: State, env: Env)
    requires s.Sound() && env.Sound()
    ensures Ready(s, env).photo
         == if Ready(s, env).config.mode == AUTO_PHOTOCELL then s.photo.ShouldBeOn(PhotoCell.Average(env.pin, 10)) else s.photo
  {
  }

  /** The photocell at the end of a run, whatever modes it went through: what the last turn that
      decided said, or what it was at first. */
  lemma {:induction false} LastDecision(s: State, turns: seq<Turn>, i: nat)
    requires s.Sound() && SoundTurns(turns) && Programmed(s) && i <= |turns|
    requires i < |turns| ==> DecidesAt(s, turns, i)
    requires forall j :: 0 <= j < |turns| && (i < j || i == |turns|) ==> !DecidesAt(s, turns, j)
    ensures Programmed(Turned(s, turns))
    ensures Turned(s, turns).photo.lastState == if i < |turns| then Light(turns[i]) < ON_THRESHOLD else s.photo.lastState
    decreases |turns|
  {
    if turns != [] {
      var n := |turns| - 1;
      OneDecision(s, turns);
      if i != n {
        assert !DecidesAt(s, turns, n);
        forall j | 0 <= j < n
          ensures DecidesAt(s, turns[..n], j) == DecidesAt(s, turns, j)
        {
          assert turns[..n][..j] == turns[..j];
        }
        LastDecision(s, turns[..n], if i < n then i else n);
      }
    }
  }

  lemma OneDecision(s: State, turns: seq<Turn>)
    requires s.Sound() && SoundTurns(turns) && Programmed(s) && turns != []
    ensures var n := |turns| - 1;
      && Programmed(Turned(s, turns))
      && Turned(s, turns).photo.lastState
         == if DecidesAt(s, turns, n) then Light(turns[n]) < ON_THRESHOLD else Turned(s, turns[..n]).photo.lastState
  {
    TurnedMore(s, turns);
    EveryProgrammed(s, turns[..|turns| - 1]);
    PhotocellTurn(Turned(s, turns[..|turns| - 1]), turns[|turns| - 1]);
  }

  lemma {:induction false} EveryProgrammed(s: State, turns: seq<Turn>)
    requires s.Sound() && SoundTurns(turns) && Programmed(s)
    ensures Programmed(Turned(s, turns))
    decreases |turns|
  {
    if turns != [] {
      EveryProgrammed(s, turns[..|turns| - 1]);
      PhotocellTurn(Turned(s, turns[..|turns| - 1]), turns[|turns| - 1]);
    }
  }

  /** After a turn in photocell mode the lamp is fully on if the last light measured outside the
      band, in this turn or an earlier one, was below 0.65, and off if it was not; if there was
      none, it is on if and only if the photocell was on at first. */
  lemma PhotocellLamp(s: State, turns: seq<Turn>, i: nat)
    requires s.Sound() && SoundTurns(turns) && Programmed(s) && turns != [] && i <= |turns|
    requires AskedLast(s, turns)
    requires i < |turns| ==> DecidesAt(s, turns, i)
    requires forall j :: 0 <= j < |turns| && (i < j || i == |turns|) ==> !DecidesAt(s, turns, j)
    ensures Turned(s, turns).lamp == Switched(if i < |turns| then Light(turns[i]) < ON_THRESHOLD else s.photo.lastState)
  {
    LastDecision(s, turns, i);
    TurnedMore(s, turns);
    PhotocellShown(Turned(s, turns[..|turns| - 1]), turns[|turns| - 1]);
  }

  /** The last turn of the run is one in photocell mode. */
  predicate AskedLast(s: State, turns: seq<Turn>)
    requires s.Sound() && SoundTurns(turns) && turns != []
  {
    var n := |turns| - 1;
    !Turned(s, turns[..n]).resetting && ModeOf(Turned(s, turns[..n]), turns[n]) == AUTO_PHOTOCELL
  }

  lemma PhotocellShown(s: State, turn: Turn)
    requires s.Sound() && turn.Sound() && !s.resetting && ModeOf(s, turn) == AUTO_PHOTOCELL
    ensures var t := Cycled(s, turn.env, turn.roll, turn.arrivals); t.lamp == Switched(t.photo.lastState)
  {
    TurnLight(s, turn);
    SwitchedIsDriven(Ready(s, turn.env).photo.lastState);
  }

  /** After a start the photocell is off, with the band from 0.65 to 0.7, and the demonstration is at
      its beginning. */
  lemma StartsDark(nvm: seq<uint8>, start: Start)
    requires |nvm| >= NVM_SIZE
    ensures Programmed(Booted(nvm, start)) && !Booted(nvm, start).photo.lastState
    ensures Booted(nvm, start).demo == DimmingDemo.START
    ensures ON_THRESHOLD == Single(65 * PhotoCell.FULL, 100) && OFF_THRESHOLD == Single(70 * PhotoCell.FULL, 100)
  {
    ThresholdsAreFloats();
  }

  // ----- the other modes, by command

  /** In the manual mode, and in modes that are none, the lamp has the manual level. */
  lemma ManualLamp(s: State, env: Env)
    requires s.Sound() && env.Sound() && Ready(s, env).config.mode !in {AUTO_PHOTOCELL, AUTO_CURVE, DEMO, AUTO_TIME}
    ensures Ready(s, env).lamp == LightOutput.Driven(Ready(s, env).config.manual)
  {
  }

  /** The command to dim to p percent, obeyed by the next turn, up to 100. */
  lemma DimOnLamp(s: State, p: uint8, env: Env)
    requires s.Sound() && !s.resetting && env.Sound()
    ensures var t := Parsed(s, ['D' as int, p]); var level := Hundredths(if p < 100 then p else 100);
      && t.Sound() && Ready(t, env).lamp.dimmingValue == level
      && Ready(t, env).lamp.duty == LightOutput.Driven(level).duty
      && (Ready(t, env).lamp.relay <==> p > 0)
  {
    NextTurnKeeps(s, Dim(p), Packet(Dim(p)), env);
    ManualLamp(Parsed(s, Packet(Dim(p))), env);
    HundredthsClamped(p);
    Ends(0);
    Ends(100);
    if 0 < p {
      HundredthsOrder(0, if p < 100 then p else 100);
    }
  }

  /** The command to switch by time, whatever its four bytes: between the two times the lamp is
      fully on, and otherwise off, where a day is added to the off time and the clock when the
      off time comes first. */
  lemma TimesOnLamp(s: State, times: OnOffByTime.Times, env: Env)
    requires s.Sound() && !s.resetting && env.Sound()
    ensures var t := Parsed(s, ['O' as int, times.onHour, times.onMinute, times.offHour, times.offMinute]);
      && t.Sound() && Ready(t, env).lamp == Switched(OnOffByTime.LitThen(times, env.Hour() * 60 + env.Minute()))
  {
    var c := SwitchByTime(times);
    NextTurnKeeps(s, c, Packet(c), env);
    var now := env.Hour() * 60 + env.Minute();
    OnOffByTime.LitAt(times, now);
    assert now / 60 == env.Hour() && now % 60 == env.Minute();
    SwitchedIsDriven(OnOffByTime.LitThen(times, now));
    TimesShown(Parsed(s, Packet(c)), env);
  }

  lemma TimesShown(s: State, env: Env)
    requires s.Sound() && env.Sound() && Ready(s, env).config.mode == AUTO_TIME
    ensures Ready(s, env).lamp == LightOutput.Driven(Ready(s, env).config.times.Level(env.Hour(), env.Minute()))
  {
  }

  /** The command to follow a curve: the lamp has the level that the documentation gives for the
      hour; an index past the custom curve stands for the first curve. */
  lemma CurveOnLamp(s: State, index: uint8, env: Env)
    requires s.Sound() && !s.resetting && env.Sound() && index != 3
    ensures var t := Parsed(s, ['C' as int, index]);
      && t.Sound()
      && Ready(t, env).lamp == LightOutput.Driven(Hundredths(DimmingCurves.Documented(if index < 3 then index else 0, env.Hour())))
  {
    var c := SelectCurve(index);
    NextTurnKeeps(s, c, Packet(c), env);
    CurveShown(Parsed(s, Packet(c)), env);
    DimmingCurves.CurvesAsDocumented(if index < 3 then index else 0, s.config.customCurve, env.Hour());
  }

  lemma CurveShown(s: State, env: Env)
    requires s.Sound() && env.Sound() && Ready(s, env).config.mode == AUTO_CURVE
    ensures var config := Ready(s, env).config;
      && config.curve <= DimmingCurves.STATIC_CURVES && |config.customCurve| == 12
      && Ready(s, env).lamp == LightOutput.Driven(DimmingCurves.Level(config.curve, config.customCurve, env.Hour()))
  {
  }

  // ----- the clock

  /** What the clock shows, day by day since 1970, as long as its seconds fit into 32 bits. */
  lemma ClockReads(env: Env, day: nat, hour: nat, minute: nat, second: nat)
    requires hour < 24 && minute < 60 && second < 60
    requires env.now == ((day * 24 + hour) * 60 + minute) * 60 + second < 0x1_0000_0000
    ensures env.Hour() == hour && env.Minute() == minute
  {
    var minutes := (day * 24 + hour) * 60 + minute;
    assert env.now / 60 == minutes;
    assert minutes / 60 == day * 24 + hour && minutes % 60 == minute;
    assert env.now / 3600 == env.now / 60 / 60;
  }

  /** The clock is right when it is past the start of 2018: 48 years with 12 leap days since 1970. */
  lemma ClockRight(env: Env)
    ensures env.Synced() <==> env.now > (48 * 365 + 12) * 24 * 3600
  {
  }

  // ----- the demonstration

  /** The turns of a run that are in the demonstration. */
  function DemoTurns(s: State, turns: seq<Turn>): nat
    requires s.Sound() && SoundTurns(turns)
  {
    if turns == [] then 0
    else
      var n := |turns| - 1;
      DemoTurns(s, turns[..n]) + if InDemo(Turned(s, turns[..n]), turns[n]) then 1 else 0
  }

  predicate InDemo(s: State, turn: Turn)
    requires s.Sound() && turn.Sound()
  {
    !s.resetting && ModeOf(s, turn) == DEMO
  }

  lemma DemoTurn(s: State, turn: Turn, k: nat)
    requires s.Sound() && turn.Sound() && s.demo == DimmingDemo.After(k)
    ensures var t := Cycled(s, turn.env, turn.roll, turn.arrivals);
      t.demo == if InDemo(s, turn) then DimmingDemo.After(k + 1) else s.demo
  {
    if !s.resetting {
      TurnLight(s, turn);
      DemoShown(s, turn.env);
    }
  }

  lemma DemoShown(s: State, env: Env)
    requires s.Sound() && env.Sound()
    ensures if Ready(s, env).config.mode == DEMO
            then Ready(s, env).demo == s.demo.Next() && Ready(s, env).lamp == LightOutput.Driven(s.demo.Next().lastValue)
            else Ready(s, env).demo == s.demo
  {
  }

  lemma {:induction false} DemoAfter(s: State, turns: seq<Turn>)
    requires s.Sound() && SoundTurns(turns) && s.demo == DimmingDemo.START
    ensures Turned(s, turns).demo == DimmingDemo.After(DemoTurns(s, turns))
    decreases |turns|
  {
    if turns != [] {
      var n := |turns| - 1;
      DemoAfter(s, turns[..n]);
      OneDemoTurn(s, turns, DemoTurns(s, turns[..n]));
    }
  }

  lemma OneDemoTurn(s: State, turns: seq<Turn>, k: nat)
    requires s.Sound() && SoundTurns(turns) && turns != []
    requires Turned(s, turns[..|turns| - 1]).demo == DimmingDemo.After(k)
    ensures Turned(s, turns).demo
         == DimmingDemo.After(if InDemo(Turned(s, turns[..|turns| - 1]), turns[|turns| - 1]) then k + 1 else k)
  {
    TurnedMore(s, turns);
    DemoTurn(Turned(s, turns[..|turns| - 1]), turns[|turns| - 1], k);
  }

  /** The k-th turn of the demonstration since the start, whatever turns in other modes come in
      between, shows step k modulo nine of its cycle. */
  lemma DemoLamp(s: State, turns: seq<Turn>)
    requires s.Sound() && SoundTurns(turns) && s.demo == DimmingDemo.START && turns != []
    requires InDemo(Turned(s, turns[..|turns| - 1]), turns[|turns| - 1])
    ensures Turned(s, turns).lamp == LightOutput.Driven(DimmingDemo.Place(DemoTurns(s, turns) % 9).lastValue)
  {
    TurnedMore(s, turns);
    DemoAfter(s, turns);
    DemoTurnShown(Turned(s, turns[..|turns| - 1]), turns[|turns| - 1]);
    DimmingDemo.Wave(DemoTurns(s, turns));
  }

  lemma DemoTurnShown(s: State, turn: Turn)
    requires s.Sound() && turn.Sound() && InDemo(s, turn)
    ensures var t := Cycled(s, turn.env, turn.roll, turn.arrivals); t.lamp == LightOutput.Driven(t.demo.lastValue)
  {
    TurnLight(s, turn);
    DemoShown(s, turn.env);
  }

  /** The demonstration is running: the next turn is an uplink turn and no packet asks for more. */
  predicate Demonstrating(s: State)
    requires s.Sound()
  {
    && !s.resetting && !s.bypass && s.Due() && s.config.mode == DEMO
    && SavedIfPending(s).nvm[DIR_OP_MODE] == DEMO
  }

  /** It goes on by itself from turn to turn, an uplink each, and every step is shown for a minute, or
      for the loop delay, give or take ten seconds, if that is shorter. */
  lemma DemoGoesOn(s: State, turn: Turn)
    requires s.Sound() && turn.Sound() && Demonstrating(s) && SilentTo(turn.arrivals, |turn.arrivals|)
    requires 30 <= s.config.loopDelay <= 65525
    ensures var t := Cycled(s, turn.env, turn.roll, turn.arrivals);
      && InDemo(s, turn) && Demonstrating(t) && t.config == s.config
      && var d := s.config.loopDelay + turn.roll - 10;
         TurnSeconds(s, turn) == if d < 60 then d else 60
  {
    ReadySound(s, turn.env);
    DemoIterated(s, turn.env);
    DelayRange(s.config.loopDelay, turn.roll);
    SilentDelay(Iterated(s, turn.env), 0, ThisDelay(s.config.loopDelay, turn.roll), turn.arrivals);
  }

  lemma DemoIterated(s: State, env: Env)
    requires s.Sound() && env.Sound() && Demonstrating(s)
    ensures var t := Iterated(s, env);
      && Ready(s, env).config.mode == DEMO && t.config == s.config
      && !t.resetting && !t.bypass && !t.pendingSave && t.nvm == SavedIfPending(s).nvm
  {
  }

  /** So a step takes a minute, as documented, whatever the jitter, if and only if the loop delay is
      at least 70 seconds; with the factory value of 30 it never does. */
  lemma DemoMinute(loopDelay: uint16)
    requires 30 <= loopDelay <= 65525
    ensures (forall roll: nat :: roll <= 20 ==> (if ThisDelay(loopDelay, roll) < 60 then ThisDelay(loopDelay, roll) else 60) == 60)
       <==> loopDelay >= 70
    ensures forall roll: nat :: roll <= 20 ==> ThisDelay(30, roll) <= 40
  {
    DelayRange(loopDelay, 0);
    assert loopDelay < 70 ==> ThisDelay(loopDelay, 0) < 60;
  }
}
