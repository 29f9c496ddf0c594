/** The energy counter: what is accumulated is either reported or still there. */
module LuminaryEnergy {
  import opened Machine
  import opened Binary32
  import opened LuminaryModel
  import opened LuminaryStorage

  /** The energy reported by the uplink of a turn, if one is sent. */
  function Reported(s: State, env: Env): nat
    requires s.Sound() && env.Sound() && s.energy >= 0.0
  {
    var r := Ready(s, env);
    ReadySound(s, env);
    if Sends(r, env) then EnergyIn(LightStatus(r.lastDimming, env.power, r.energy, r.config.mode)) else 0
  }

  /** What is taken off the counter without being reported. */
  function Lost(s: State, env: Env): nat
    requires s.Sound() && env.Sound() && s.energy >= 0.0
  {
    if Sends(Ready(s, env), env) then 0x1_0000 * (Ready(s, env).energy.Floor / 0x1_0000) else 0
  }

  /** The message tells the level in percent, but for the two hundredths that lose one. */
  lemma MessageTellsDimming(n: nat, power: real, energy: real, mode: uint8)
    requires n <= 100 && power >= 0.0 && energy >= 0.0
    ensures LightStatus(Hundredths(n), power, energy, mode)[3] == if n == 53 || n == 59 then n - 1 else n
  {
    PercentHundredths(n);
  }

  lemma MessageTellsEnergy(dimming: nat, power: real, energy: real, mode: uint8)
    requires power >= 0.0 && energy >= 0.0
    ensures EnergyIn(LightStatus(dimming, power, energy, mode)) == energy.Floor % 0x1_0000
  {
  }

  lemma {:induction false} WaitKeepsEnergy(s: State, i: nat, n: nat, arrivals: Arrivals)
    requires s.Sound() && NonEmpty(arrivals)
    ensures Waited(s, i, n, arrivals).energy == s.energy
    decreases n - i
  {
    if GoesOn(s, i, n) {
      var t := Counting(s);
      ParsingKeepsEnergy(t, ArrivalsAt(arrivals, i));
      WaitKeepsEnergy(ParsedAll(t, ArrivalsAt(arrivals, i)), i + 1, n, arrivals);
    }
  }

  lemma {:induction false} ParsingKeepsEnergy(s: State, rxs: seq<seq<uint8>>)
    requires s.Sound() && forall i :: 0 <= i < |rxs| ==> rxs[i] != []
    ensures ParsedAll(s, rxs).energy == s.energy
    decreases |rxs|
  {
    if rxs != [] {
      ParsingKeepsEnergy(s, rxs[..|rxs| - 1]);
    }
  }

  /** One turn: the measured energy is reported, lost or kept; after a successful uplink less
      than one unit is kept. */
  lemma EnergyOfTurn(s: State, turn: Turn)
    requires s.Sound() && turn.Sound() && s.energy >= 0.0 && !s.resetting
    ensures var t := Cycled(s, turn.env, turn.roll, turn.arrivals);
      && t.energy >= 0.0
      && s.energy + turn.env.measured == t.energy + Reported(s, turn.env) as real + Lost(s, turn.env) as real
      && (Sends(Ready(s, turn.env), turn.env) ==> t.energy < 1.0)
    ensures Lost(s, turn.env) == 0 <==> (Sends(Ready(s, turn.env), turn.env) ==> s.energy + turn.env.measured < 65536.0)
  {
    ReadySound(s, turn.env);
    var r, t := Ready(s, turn.env), Iterated(s, turn.env);
    ReadyEnergy(s, turn.env);
    WaitKeepsEnergy(t, 0, ThisDelay(t.config.loopDelay, turn.roll), turn.arrivals);
    MessageTellsEnergy(r.lastDimming, turn.env.power, r.energy, r.config.mode);
    QuotientAndRest(r.energy.Floor);
    assert r.energy.Floor as real <= r.energy < r.energy.Floor as real + 1.0;
  }

  lemma ReadyEnergy(s: State, env: Env)
    requires s.Sound() && env.Sound()
    ensures Ready(s, env).energy == s.energy + env.measured
  {
  }

  lemma QuotientAndRest(n: nat)
    ensures n == n % 0x1_0000 + 0x1_0000 * (n / 0x1_0000)
    ensures n / 0x1_0000 == 0 <==> n < 0x1_0000
  {
  }

  // ----- whole runs

  datatype Account = Account(measured: real, reported: nat, lost: nat)

  function AccountOf(s: State, turns: seq<Turn>): (a: Account)
    requires s.Sound() && SoundTurns(turns) && s.energy >= 0.0
    ensures Turned(s, turns).energy >= 0.0
  {
    if turns == [] then Account(0.0, 0, 0)
    else
      var n := |turns| - 1;
      var before, b := AccountOf(s, turns[..n]), Turned(s, turns[..n]);
      if b.resetting then before
      else
        EnergyOfTurn(b, turns[n]);
        Account(before.measured + turns[n].env.measured,
                before.reported + Reported(b, turns[n].env),
                before.lost + Lost(b, turns[n].env))
  }

  /** Every successful uplink of the run found the counter below 65536. */
  predicate NeverOverflows(s: State, turns: seq<Turn>)
    requires s.Sound() && SoundTurns(turns)
  {
    turns == [] ||
    (var n := |turns| - 1;
     var b := Turned(s, turns[..n]);
     && NeverOverflows(s, turns[..n])
     && (!b.resetting && Sends(Ready(b, turns[n].env), turns[n].env) ==> b.energy + turns[n].env.measured < 65536.0))
  }

  /** Over every run, with any pattern of failed uplinks, what was measured has been reported,
      lost, or is still on the counter. */
  lemma {:induction false} EnergyAccounted(s: State, turns: seq<Turn>)
    requires s.Sound() && SoundTurns(turns) && s.energy >= 0.0
    ensures var a := AccountOf(s, turns);
      s.energy + a.measured == Turned(s, turns).energy + a.reported as real + a.lost as real
    ensures AccountOf(s, turns).lost == 0 <==> NeverOverflows(s, turns)
    decreases |turns|
  {
    if turns != [] {
      var n := |turns| - 1;
      EnergyAccounted(s, turns[..n]);
      var b := Turned(s, turns[..n]);
      if !b.resetting {
        EnergyOfTurn(b, turns[n]);
      }
    }
  }

  /** Energy is conserved, that is, the reports and what is left add up to what was measured,
      exactly when no successful uplink found the 16-bit field too small. */
  lemma EnergyConserved(s: State, turns: seq<Turn>)
    requires s.Sound() && SoundTurns(turns) && s.energy >= 0.0
    ensures s.energy + AccountOf(s, turns).measured == AccountOf(s, turns).reported as real + Turned(s, turns).energy
       <==> NeverOverflows(s, turns)
  {
    EnergyAccounted(s, turns);
  }
}
