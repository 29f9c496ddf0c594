/** The operation mode over runs: which commands were heard, when a saved clock mode comes back,
    and what packets that arrive again can do. */
module LuminaryModes {
  import opened Machine
  import opened LuminaryModel
  import opened LightController
  import opened LuminaryStorage

  // ----- the commands that are heard

  /** The packets of one second that are obeyed; after a software reset none is. */
  function Obeyed(s: State, rxs: seq<seq<uint8>>): seq<seq<uint8>>
    requires s.Sound() && forall i :: 0 <= i < |rxs| ==> rxs[i] != []
  {
    if rxs == [] then []
    else
      var front := rxs[..|rxs| - 1];
      if ParsedAll(s, front).resetting then Obeyed(s, front) else Obeyed(s, front) + [rxs[|rxs| - 1]]
  }

  /** The packets that are obeyed in a delay, from second i on. */
  function Heard(s: State, i: nat, n: nat, arrivals: Arrivals): seq<seq<uint8>>
    requires s.Sound() && NonEmpty(arrivals)
    decreases n - i
  {
    if GoesOn(s, i, n) then
      Obeyed(Counting(s), ArrivalsAt(arrivals, i)) + Heard(ParsedAll(Counting(s), ArrivalsAt(arrivals, i)), i + 1, n, arrivals)
    else []
  }

  /** The mode that a command sets, if it sets one. */
  function SetsMode(rx: seq<uint8>): Option<uint8> {
    if rx == [] then None
    else
      match rx[0] as char
      case 'C' => if |rx| < 2 then None else Some(AUTO_CURVE)
      case 'D' => if |rx| < 2 then None else Some(MANUAL)
      case 'M' => if |rx| < 2 || rx[1] > DEMO then None else Some(rx[1])
      case 'O' => if |rx| < 5 then None else Some(AUTO_TIME)
      case _ => None
  }

  /** The last mode that was set, or the one before. */
  function LastMode(rxs: seq<seq<uint8>>, mode: uint8): uint8 {
    if rxs == [] then mode
    else
      var last := SetsMode(rxs[|rxs| - 1]);
      if last.Some? then last.value else LastMode(rxs[..|rxs| - 1], mode)
  }

  predicate SavesAny(rxs: seq<seq<uint8>>) {
    exists i :: 0 <= i < |rxs| && rxs[i] != [] && Saves(rxs[i])
  }

  lemma {:induction false} LastModeConcat(a: seq<seq<uint8>>, b: seq<seq<uint8>>, mode: uint8)
    ensures LastMode(a + b, mode) == LastMode(b, LastMode(a, mode))
    decreases |b|
  {
    if b == [] {
      assert a + b == a;
    } else {
      assert (a + b)[..|a + b| - 1] == a + b[..|b| - 1];
      LastModeConcat(a, b[..|b| - 1], mode);
    }
  }

  lemma SavesAnyConcat(a: seq<seq<uint8>>, b: seq<seq<uint8>>)
    ensures SavesAny(a + b) <==> SavesAny(a) || SavesAny(b)
  {
    forall i | 0 <= i < |a|
      ensures (a + b)[i] == a[i]
    {
    }
    forall i | 0 <= i < |b|
      ensures (a + b)[|a| + i] == b[i]
    {
    }
  }

  lemma CommandedMode(config: Settings, rx: seq<uint8>)
    requires rx != [] && |config.customCurve| == 12
    ensures Commanded(config, rx).mode == if SetsMode(rx).Some? then SetsMode(rx).value else config.mode
  {
  }

  lemma {:induction false} ObeyedEffect(s: State, rxs: seq<seq<uint8>>)
    requires s.Sound() && forall i :: 0 <= i < |rxs| ==> rxs[i] != []
    ensures ParsedAll(s, rxs).config.mode == LastMode(Obeyed(s, rxs), s.config.mode)
    ensures ParsedAll(s, rxs).pendingSave <==> s.pendingSave || SavesAny(Obeyed(s, rxs))
    decreases |rxs|
  {
    if rxs != [] {
      var front, last := rxs[..|rxs| - 1], rxs[|rxs| - 1];
      ObeyedEffect(s, front);
      var before := ParsedAll(s, front);
      if !before.resetting {
        assert (Obeyed(s, front) + [last])[..|Obeyed(s, front)|] == Obeyed(s, front);
        SavesAnyConcat(Obeyed(s, front), [last]);
        SavesOne(last);
        CommandedMode(before.config, last);
      }
    }
  }

  lemma SavesOne(rx: seq<uint8>)
    requires rx != []
    ensures SavesAny([rx]) <==> Saves(rx)
  {
    assert [rx][0] == rx;
  }

  lemma OneSecond(s: State, i: nat, n: nat, arrivals: Arrivals)
    requires s.Sound() && NonEmpty(arrivals)
    ensures GoesOn(s, i, n) ==>
              var u := ParsedAll(Counting(s), ArrivalsAt(arrivals, i));
              && Waited(s, i, n, arrivals) == Waited(u, i + 1, n, arrivals)
              && Heard(s, i, n, arrivals) == Obeyed(Counting(s), ArrivalsAt(arrivals, i)) + Heard(u, i + 1, n, arrivals)
    ensures !GoesOn(s, i, n) ==>
              && Heard(s, i, n, arrivals) == []
              && Waited(s, i, n, arrivals).config == s.config && Waited(s, i, n, arrivals).pendingSave == s.pendingSave
  {
  }

  /** What packets do to the mode and to the request to save. */
  predicate Effect(s: State, rxs: seq<seq<uint8>>, t: State) {
    t.config.mode == LastMode(rxs, s.config.mode) && (t.pendingSave <==> s.pendingSave || SavesAny(rxs))
  }

  lemma EffectConcat(s: State, a: seq<seq<uint8>>, t: State, b: seq<seq<uint8>>, u: State)
    requires Effect(s, a, t) && Effect(t, b, u)
    ensures Effect(s, a + b, u)
  {
    LastModeConcat(a, b, s.config.mode);
    SavesAnyConcat(a, b);
  }

  lemma {:induction false} HeardEffect(s: State, i: nat, n: nat, arrivals: Arrivals)
    requires s.Sound() && NonEmpty(arrivals)
    ensures Effect(s, Heard(s, i, n, arrivals), Waited(s, i, n, arrivals))
    decreases n - i
  {
    OneSecond(s, i, n, arrivals);
    if GoesOn(s, i, n) {
      var t, now := Counting(s), ArrivalsAt(arrivals, i);
      var u := ParsedAll(t, now);
      ObeyedEffect(t, now);
      HeardEffect(u, i + 1, n, arrivals);
      EffectConcat(s, Obeyed(t, now), u, Heard(u, i + 1, n, arrivals), Waited(u, i + 1, n, arrivals));
    }
  }

  // ----- turns

  /** The packets that are obeyed in the delay of a turn. */
  function HeardIn(s: State, turn: Turn): seq<seq<uint8>>
    requires s.Sound() && turn.Sound()
  {
    if s.resetting then []
    else
      ReadySound(s, turn.env);
      var t := Iterated(s, turn.env);
      Heard(t, 0, ThisDelay(t.config.loopDelay, turn.roll), turn.arrivals)
  }

  function HeardAll(s: State, turns: seq<Turn>): seq<seq<uint8>>
    requires s.Sound() && SoundTurns(turns)
  {
    if turns == [] then []
    else
      var n := |turns| - 1;
      HeardAll(s, turns[..n]) + HeardIn(Turned(s, turns[..n]), turns[n])
  }

  /** The mode that a turn finds in the EEPROM: a pending save is carried out first. */
  function ModeFound(s: State): uint8
    requires s.Sound()
  {
    if s.pendingSave then s.config.mode else s.nvm[DIR_OP_MODE]
  }

  lemma FoundByte(s: State)
    requires s.Sound()
    ensures SavedIfPending(s).nvm[DIR_OP_MODE] == ModeFound(s)
    ensures SavedIfPending(s).Sound()
  {
    SavedBytes(s.config, s.nvm);
  }

  /** What a turn does to the mode, here and in the EEPROM. */
  lemma TurnMode(s: State, turn: Turn)
    requires s.Sound() && turn.Sound() && !s.resetting
    ensures var t := Cycled(s, turn.env, turn.roll, turn.arrivals);
      && t.config.mode == LastMode(HeardIn(s, turn), if Recovers(s, turn) then ModeFound(s) else s.config.mode)
      && t.nvm[DIR_OP_MODE] == ModeFound(s)
      && (t.pendingSave <==> SavesAny(HeardIn(s, turn)))
  {
    ReadySound(s, turn.env);
    FoundByte(s);
    IteratedMode(s, turn.env);
    var t := Iterated(s, turn.env);
    HeardEffect(t, 0, ThisDelay(t.config.loopDelay, turn.roll), turn.arrivals);
  }

  lemma IteratedMode(s: State, env: Env)
    requires s.Sound() && env.Sound() && !s.resetting
    ensures var saved := SavedIfPending(s); var t := Iterated(s, env);
      && t.nvm == saved.nvm && !t.pendingSave
      && t.config.mode == if s.Due() && env.Synced() && env.modeRead then saved.nvm[DIR_OP_MODE] else s.config.mode
  {
  }

  // ----- an unsynced node

  /** The modes that need the clock. */
  predicate ClockMode(mode: uint8) {
    mode == AUTO_CURVE || mode == AUTO_TIME
  }

  /** Some turn recovered the saved mode. */
  predicate RecoversNever(s: State, turns: seq<Turn>)
    requires s.Sound() && SoundTurns(turns)
  {
    turns == [] ||
    (RecoversNever(s, turns[..|turns| - 1]) && !Recovers(Turned(s, turns[..|turns| - 1]), turns[|turns| - 1]))
  }

  /** Without the clock the mode is what the commands made of it. */
  lemma {:induction false} UnsyncedMode(s: State, turns: seq<Turn>)
    requires s.Sound() && SoundTurns(turns) && RecoversNever(s, turns)
    ensures Turned(s, turns).config.mode == LastMode(HeardAll(s, turns), s.config.mode)
    decreases |turns|
  {
    if turns != [] {
      var n := |turns| - 1;
      var b := Turned(s, turns[..n]);
      UnsyncedMode(s, turns[..n]);
      LastModeConcat(HeardAll(s, turns[..n]), HeardIn(b, turns[n]), s.config.mode);
      if !b.resetting {
        TurnMode(b, turns[n]);
      }
    }
  }

  /** The last command that sets the mode sets one that needs the clock. */
  predicate AsksForClock(rxs: seq<seq<uint8>>) {
    rxs != [] &&
    (var last := SetsMode(rxs[|rxs| - 1]);
     if last.Some? then ClockMode(last.value) else AsksForClock(rxs[..|rxs| - 1]))
  }

  lemma {:induction false} LastModeClock(rxs: seq<seq<uint8>>, mode: uint8)
    requires !ClockMode(mode)
    ensures ClockMode(LastMode(rxs, mode)) <==> AsksForClock(rxs)
    decreases |rxs|
  {
    if rxs != [] {
      LastModeClock(rxs[..|rxs| - 1], mode);
    }
  }

  /** A started node that never finds its clock right runs a curve or switches by time exactly
      when the last mode command it heard asked for that: it is not kept in a safe mode. */
  lemma UnsyncedNode(nvm: seq<uint8>, start: Start, turns: seq<Turn>)
    requires |nvm| >= NVM_SIZE && Booted(nvm, start).Sound() && SoundTurns(turns)
    requires RecoversNever(Booted(nvm, start), turns)
    ensures ClockMode(Turned(Booted(nvm, start), turns).config.mode) <==> AsksForClock(HeardAll(Booted(nvm, start), turns))
  {
    var b := Booted(nvm, start);
    UnsyncedMode(b, turns);
    LastModeClock(HeardAll(b, turns), b.config.mode);
  }

  // ----- when a saved mode comes back

  predicate SetsNone(rxs: seq<seq<uint8>>) {
    forall i :: 0 <= i < |rxs| ==> SetsMode(rxs[i]) == None
  }

  lemma {:induction false} NothingSet(rxs: seq<seq<uint8>>, mode: uint8)
    requires SetsNone(rxs)
    ensures LastMode(rxs, mode) == mode
    decreases |rxs|
  {
    if rxs != [] {
      NothingSet(rxs[..|rxs| - 1], mode);
    }
  }

  /** A turn recovers the saved mode, and no command heard before asked for a save. */
  predicate RecoveredInTime(s: State, turns: seq<Turn>)
    requires s.Sound() && SoundTurns(turns)
  {
    turns != [] &&
    (var n := |turns| - 1;
     || RecoveredInTime(s, turns[..n])
     || (Recovers(Turned(s, turns[..n]), turns[n]) && !SavesAny(HeardAll(s, turns[..n]))))
  }

  /** Kept, lost, or still waiting for the clock. */
  predicate Fate(s: State, turns: seq<Turn>, m: uint8)
    requires s.Sound() && SoundTurns(turns)
  {
    var t := Turned(s, turns);
    if RecoveredInTime(s, turns) then t.config.mode == m && ModeFound(t) == m
    else if SavesAny(HeardAll(s, turns)) then t.config.mode == AUTO_PHOTOCELL && ModeFound(t) == AUTO_PHOTOCELL
    else t.config.mode == AUTO_PHOTOCELL && t.nvm[DIR_OP_MODE] == m && !t.pendingSave
  }

  lemma {:induction false} EveryFate(s: State, turns: seq<Turn>, m: uint8)
    requires s.Sound() && SoundTurns(turns) && SetsNone(HeardAll(s, turns))
    requires s.config.mode == AUTO_PHOTOCELL && s.nvm[DIR_OP_MODE] == m && !s.pendingSave
    ensures Fate(s, turns, m)
    decreases |turns|
  {
    if turns != [] {
      var n := |turns| - 1;
      var b, heard := Turned(s, turns[..n]), HeardIn(Turned(s, turns[..n]), turns[n]);
      assert HeardAll(s, turns) == HeardAll(s, turns[..n]) + heard;
      SetsNoneParts(HeardAll(s, turns[..n]), heard);
      SavesAnyConcat(HeardAll(s, turns[..n]), heard);
      EveryFate(s, turns[..n], m);
      if !b.resetting {
        TurnMode(b, turns[n]);
        NothingSet(heard, if Recovers(b, turns[n]) then ModeFound(b) else b.config.mode);
      }
    }
  }

  lemma SetsNoneParts(a: seq<seq<uint8>>, b: seq<seq<uint8>>)
    requires SetsNone(a + b)
    ensures SetsNone(a) && SetsNone(b)
  {
    forall i | 0 <= i < |a|
      ensures SetsMode(a[i]) == None
    {
      assert (a + b)[i] == a[i];
    }
    forall i | 0 <= i < |b|
      ensures SetsMode(b[i]) == None
    {
      assert (a + b)[|a| + i] == b[i];
    }
  }

  /** A node that started in photocell mode over a saved clock mode, and whose mode no command
      sets, is in the saved mode exactly when a turn that finds the clock right came before any
      command that asks for a save. */
  lemma SavedModeSurvives(s: State, turns: seq<Turn>, m: uint8)
    requires s.Sound() && SoundTurns(turns) && SetsNone(HeardAll(s, turns))
    requires ClockMode(m) && s.config.mode == AUTO_PHOTOCELL && s.nvm[DIR_OP_MODE] == m && !s.pendingSave
    ensures Turned(s, turns).config.mode == m <==> RecoveredInTime(s, turns)
  {
    EveryFate(s, turns, m);
  }

  lemma {:induction false} TooLate(s: State, turns: seq<Turn>)
    requires s.Sound() && SoundTurns(turns) && turns != []
    requires !Recovers(s, turns[0]) && SavesAny(HeardIn(s, turns[0]))
    ensures !RecoveredInTime(s, turns) && SavesAny(HeardAll(s, turns))
    decreases |turns|
  {
    var n := |turns| - 1;
    if n == 0 {
      assert turns[..0] == [];
      SavesAnyConcat(HeardAll(s, []), HeardIn(s, turns[0]));
    } else {
      TooLate(s, turns[..n]);
      SavesAnyConcat(HeardAll(s, turns[..n]), HeardIn(Turned(s, turns[..n]), turns[n]));
    }
  }

  /** The command to loop every 60 seconds and send every 20 loops. */
  const SLOWER: seq<uint8> := ['T' as int, 0, 60, 20]

  /** A saved curve mode that is lost: the first turn after the start has no clock, and this
      command comes in its delay. Whatever happens then, as long as no command sets the mode, the
      node stays with its photocell, and the curve mode is gone from the EEPROM too. */
  lemma LostRun(nvm: seq<uint8>, start: Start, env: Env, roll: nat, later: seq<Turn>)
    requires |nvm| >= NVM_SIZE && VersionMatches(nvm) && Readable(start) && nvm[DIR_OP_MODE] == AUTO_CURVE
    requires 30 <= Word16(nvm[0x10], nvm[0x11]) <= 65525
    requires env.Sound() && !env.Synced() && roll <= 20 && SoundTurns(later)
    requires Booted(nvm, start).Sound() && SetsNone(HeardAll(Booted(nvm, start), [Turn(env, roll, [[SLOWER]])] + later))
    ensures var t := Turned(Booted(nvm, start), [Turn(env, roll, [[SLOWER]])] + later);
      t.config.mode == AUTO_PHOTOCELL && ModeFound(t) == AUTO_PHOTOCELL
  {
    var b, turns := Booted(nvm, start), [Turn(env, roll, [[SLOWER]])] + later;
    SlowerHeard(b, turns[0]);
    TooLate(b, turns);
    EveryFate(b, turns, AUTO_CURVE);
  }

  lemma SlowerHeard(s: State, turn: Turn)
    requires s.Sound() && turn.Sound() && turn.arrivals == [[SLOWER]] && !s.resetting && !s.bypass && s.Due()
    requires s.config.mode == AUTO_PHOTOCELL && 30 <= s.config.loopDelay <= 65525 && !turn.env.Synced()
    ensures SavesAny(HeardIn(s, turn))
  {
    ReadySound(s, turn.env);
    var t := Iterated(s, turn.env);
    UneventfulTurn(s, turn.env);
    var u := ParsedAll(t, [SLOWER]);
    OneSecond(t, 0, ThisDelay(t.config.loopDelay, turn.roll), turn.arrivals);
    ObeyedAlone(t, SLOWER);
    SavesOne(SLOWER);
    SavesAnyConcat([SLOWER], Heard(u, 1, ThisDelay(t.config.loopDelay, turn.roll), turn.arrivals));
  }

  lemma UneventfulTurn(s: State, env: Env)
    requires s.Sound() && env.Sound() && !s.resetting && !s.bypass && s.Due() && !env.Synced()
    ensures var t := Iterated(s, env);
      !t.resetting && !t.bypass && t.config == s.config
  {
  }

  lemma ObeyedAlone(s: State, rx: seq<uint8>)
    requires s.Sound() && rx != [] && !s.resetting
    ensures Obeyed(s, [rx]) == [rx]
  {
    var none: seq<seq<uint8>> := [];
    assert [rx][..0] == none;
    assert ParsedAll(s, none) == s && Obeyed(s, none) == [];
  }

  // ----- packets that arrive again between turns

  /** The settings are what the command makes of them, here and for the next restart. */
  predicate Settled(s: State, rx: seq<uint8>)
    requires s.Sound() && rx != []
  {
    Commanded(s.config, rx) == s.config && ModeFound(s) == s.config.mode
  }

  /** Every packet that arrives is the same one. */
  predicate Only(arrivals: Arrivals, rx: seq<uint8>) {
    forall i, j :: 0 <= i < |arrivals| && 0 <= j < |arrivals[i]| ==> arrivals[i][j] == rx
  }

  lemma {:induction false} AgainParsed(s: State, rxs: seq<seq<uint8>>, rx: seq<uint8>)
    requires s.Sound() && rx != [] && Settled(s, rx) && forall i :: 0 <= i < |rxs| ==> rxs[i] == rx
    requires Saves(rx)
    ensures ParsedAll(s, rxs).config == s.config && Settled(ParsedAll(s, rxs), rx)
    decreases |rxs|
  {
    if rxs != [] {
      AgainParsed(s, rxs[..|rxs| - 1], rx);
    }
  }

  lemma {:induction false} AgainWaited(s: State, i: nat, n: nat, arrivals: Arrivals, rx: seq<uint8>)
    requires s.Sound() && NonEmpty(arrivals) && rx != [] && Only(arrivals, rx) && Settled(s, rx) && Saves(rx)
    ensures Waited(s, i, n, arrivals).config == s.config && Settled(Waited(s, i, n, arrivals), rx)
    decreases n - i
  {
    if GoesOn(s, i, n) {
      OneSecond(s, i, n, arrivals);
      AgainParsed(Counting(s), ArrivalsAt(arrivals, i), rx);
      AgainWaited(ParsedAll(Counting(s), ArrivalsAt(arrivals, i)), i + 1, n, arrivals, rx);
    }
  }

  lemma AgainTurned(s: State, turn: Turn, rx: seq<uint8>)
    requires s.Sound() && turn.Sound() && rx != [] && Only(turn.arrivals, rx) && Settled(s, rx) && Saves(rx)
    ensures var t := Cycled(s, turn.env, turn.roll, turn.arrivals); t.config == s.config && Settled(t, rx)
  {
    if !s.resetting {
      ReadySound(s, turn.env);
      FoundByte(s);
      var t := Iterated(s, turn.env);
      IteratedSettled(s, turn.env);
      AgainWaited(t, 0, ThisDelay(t.config.loopDelay, turn.roll), turn.arrivals, rx);
    }
  }

  lemma IteratedSettled(s: State, env: Env)
    requires s.Sound() && env.Sound() && ModeFound(s) == s.config.mode
    ensures Iterated(s, env).Sound() && Iterated(s, env).config == s.config
    ensures ModeFound(Iterated(s, env)) == s.config.mode
  {
    ReadySound(s, env);
    FoundByte(s);
  }

  /** A command that has been obeyed, and whose packet the radio hands over again and again while
      turns go on, changes no setting any more: not by itself, not through the saves it asks for,
      and not through the recoveries of the saved mode that it brings forward. */
  lemma {:induction false} StaleBetweenTurns(s: State, rx: seq<uint8>, turns: seq<Turn>)
    requires s.Sound() && !s.resetting && rx != [] && Saves(rx) && SoundTurns(turns)
    requires forall i :: 0 <= i < |turns| ==> Only(turns[i].arrivals, rx)
    ensures Parsed(s, rx).Sound() && Turned(Parsed(s, rx), turns).config == Parsed(s, rx).config
    ensures Settled(Turned(Parsed(s, rx), turns), rx)
    decreases |turns|
  {
    ParsedSound(s, rx);
    ParsedTwice(s, rx);
    if turns != [] {
      var n := |turns| - 1;
      StaleBetweenTurns(s, rx, turns[..n]);
      AgainTurned(Turned(Parsed(s, rx), turns[..n]), turns[n], rx);
    }
  }

  /** What it does do: it cuts the delay short, and the next turn is an uplink turn. */
  lemma StaleBringsUplink(s: State, i: nat, n: nat, arrivals: Arrivals, rx: seq<uint8>)
    requires s.Sound() && NonEmpty(arrivals) && GoesOn(s, i, n) && i + 1 < n
    requires ArrivalsAt(arrivals, i) == [rx] && rx != [] && rx[0] as char != 'R'
    ensures Waited(s, i, n, arrivals).Due() && !Waited(s, i, n, arrivals).bypass
    ensures Waited(s, i, n, arrivals).config == Commanded(s.config, rx)
  {
    var t := Counting(s);
    OneSecond(s, i, n, arrivals);
    ParsedAlone(t, rx);
    var u := ParsedAll(t, [rx]);
    assert u.bypass && !u.resetting;
  }
}
