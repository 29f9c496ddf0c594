/** The status LED: switched by hand or by a timer that walks a vector of intervals. */
module LedHandler {
  import opened Machine
  import opened Remainders

  datatype LedMode = Manual | Cicle

  /** pin: the level written to the output; timer: the interval the timeout is armed with. */
  datatype Led = Led(
    activeHigh: bool,
    pin: bool,
    mode: LedMode,
    cicleVector: seq<real>,
    cicleIndex: uint8,
    oneTime: bool,
    timer: Option<real>)
  {
    predicate IsOn() {
      pin == activeHigh
    }

    function SetTo(on: bool): Led {
      this.(pin := if on then activeHigh else !activeHigh)
    }

    function SetManual(on: bool): Led {
      SetTo(on).(mode := Manual, timer := None)
    }

    function Toggle(): Led {
      this.(pin := !pin, mode := Manual, timer := None)
    }

    function SetCicle(v: seq<real>, once: bool): Led {
      if |v| < 2 then this
      else SetTo(true).(cicleVector := v, cicleIndex := 0, oneTime := once, mode := Cicle, timer := Some(v[0]))
    }

    /** cicleIndex++ on a byte */
    function Next(): uint8 {
      (cicleIndex + 1) % 256
    }

    /** The timer callback; the index wraps on a byte before it is compared with the size. */
    function Fire(): Led
      requires cicleVector != []
    {
      if Next() >= |cicleVector| && oneTime then this.(cicleIndex := Next()).SetManual(false)
      else
        var i := if Next() >= |cicleVector| then 0 else Next();
        SetTo(i % 2 == 0).(cicleIndex := i, timer := Some(cicleVector[i]))
    }

    /** A timer is armed exactly in Cicle mode, with the interval at the index, and the LED is
        on exactly at the even ones. */
    predicate Inv() {
      && (timer.Some? <==> mode == Cicle)
      && (mode == Cicle ==>
            && |cicleVector| >= 2 && cicleIndex < |cicleVector|
            && timer == Some(cicleVector[cicleIndex])
            && (IsOn() <==> cicleIndex % 2 == 0))
    }
  }

  datatype Input = Manually(on: bool) | Toggled | Cicled(v: seq<real>, once: bool) | Fired

  /** The timer fires only while it is armed. */
  function Step(s: Led, input: Input): Led {
    match input
    case Manually(on) => s.SetManual(on)
    case Toggled => s.Toggle()
    case Cicled(v, once) => s.SetCicle(v, once)
    case Fired => if s.timer.Some? && s.cicleVector != [] then s.Fire() else s
  }

  function Run(s: Led, inputs: seq<Input>): Led {
    if inputs == [] then s else Step(Run(s, inputs[..|inputs| - 1]), inputs[|inputs| - 1])
  }

  lemma StepKeeps(s: Led, input: Input)
    requires s.Inv()
    ensures Step(s, input).Inv() && Step(s, input).activeHigh == s.activeHigh
  {
  }

  /** In every run from power-up, whatever the fields left unset contain. */
  lemma {:induction false} EveryRun(s: Led, inputs: seq<Input>)
    requires s.mode == Manual && s.timer == None
    ensures Run(s, inputs).Inv()
    ensures Run(s, inputs).activeHigh == s.activeHigh
    decreases |inputs|
  {
    if inputs != [] {
      EveryRun(s, inputs[..|inputs| - 1]);
      StepKeeps(Run(s, inputs[..|inputs| - 1]), inputs[|inputs| - 1]);
    }
  }

  // ----- by hand

  function Toggles(inputs: seq<Input>): nat {
    if inputs == [] then 0
    else Toggles(inputs[..|inputs| - 1]) + if inputs[|inputs| - 1].Toggled? then 1 else 0
  }

  /** An input that leaves an LED that is controlled by hand so, and does not say what it is. */
  predicate StaysByHand(input: Input) {
    input.Toggled? || input.Fired? || (input.Cicled? && |input.v| < 2)
  }

  /** An LED that was switched by hand shows what it was switched to, inverted by every toggle
      since, and the timer is not armed; expiries that come late and refused cycles do nothing.
      A toggle takes a cycle over where it is. */
  lemma {:induction false} SetByHand(s: Led, inputs: seq<Input>, i: nat)
    requires i < |inputs| && (inputs[i].Manually? || inputs[i].Toggled?)
    requires forall j :: i < j < |inputs| ==> StaysByHand(inputs[j])
    ensures Run(s, inputs).mode == Manual && Run(s, inputs).timer == None
    ensures var on := if inputs[i].Manually? then inputs[i].on else !Run(s, inputs[..i]).IsOn();
      Run(s, inputs).IsOn() <==> (on <==> Toggles(inputs[i + 1..]) % 2 == 0)
    decreases |inputs|
  {
    var n := |inputs| - 1;
    if i < n {
      SetByHand(s, inputs[..n], i);
      assert inputs[..n][..i] == inputs[..i];
      OneToggleMore(inputs, i + 1);
      OneByHand(Run(s, inputs[..n]), inputs[n]);
    }
  }

  lemma OneToggleMore(inputs: seq<Input>, i: nat)
    requires i < |inputs|
    ensures Toggles(inputs[i..]) == Toggles(inputs[..|inputs| - 1][i..]) + if inputs[|inputs| - 1].Toggled? then 1 else 0
  {
    assert inputs[i..][..|inputs| - 1 - i] == inputs[..|inputs| - 1][i..];
  }

  lemma OneByHand(s: Led, input: Input)
    requires s.mode == Manual && s.timer == None && StaysByHand(input)
    ensures Step(s, input).mode == Manual && Step(s, input).timer == None
    ensures Step(s, input).IsOn() <==> (s.IsOn() <==> !input.Toggled?)
  {
  }

  // ----- cycles

  /** After k expiries of the timer. */
  function After(s: Led, k: nat): Led {
    if k == 0 then s else Step(After(s, k - 1), Fired)
  }

  /** How many intervals the byte index ever reaches. */
  function Period(n: nat): nat {
    if n < 256 then n else 256
  }

  /** A repeating cycle through v is at interval i. */
  predicate Repeating(t: Led, v: seq<real>, i: nat) {
    && i < |v| && i < 256
    && t.mode == Cicle && !t.oneTime && t.cicleVector == v && t.cicleIndex == i
    && t.timer == Some(v[i])
    && (t.IsOn() <==> i % 2 == 0)
  }

  lemma RepeatingGoesOn(t: Led, v: seq<real>, i: nat)
    requires |v| >= 2 && Repeating(t, v, i)
    ensures Repeating(Step(t, Fired), v, if i + 1 == Period(|v|) then 0 else i + 1)
    ensures Step(t, Fired).activeHigh == t.activeHigh
  {
  }

  lemma {:induction false} RepeatingAt(s: Led, v: seq<real>, k: nat)
    requires |v| >= 2
    ensures Repeating(After(s.SetCicle(v, false), k), v, IndexAfter(k, Period(|v|)))
    ensures After(s.SetCicle(v, false), k).activeHigh == s.activeHigh
  {
    if k > 0 {
      RepeatingAt(s, v, k - 1);
      RepeatingGoesOn(After(s.SetCicle(v, false), k - 1), v, IndexAfter(k - 1, Period(|v|)));
    }
  }

  /** After k expiries a repeating cycle is at interval k modulo its period. */
  lemma RepeatingCycle(s: Led, v: seq<real>, k: nat)
    requires |v| >= 2
    ensures Repeating(After(s.SetCicle(v, false), k), v, k % Period(|v|))
  {
    RepeatingAt(s, v, k);
    IndexIsRemainder(k, Period(|v|));
  }

  /** A one-shot cycle of fewer than 256 intervals ends after exactly as many expiries. */
  predicate OneShot(t: Led, v: seq<real>, i: nat) {
    && i < |v|
    && t.mode == Cicle && t.oneTime && t.cicleVector == v && t.cicleIndex == i
    && t.timer == Some(v[i])
    && (t.IsOn() <==> i % 2 == 0)
  }

  predicate Ended(t: Led) {
    t.mode == Manual && t.timer == None && !t.IsOn()
  }

  lemma OneShotGoesOn(t: Led, v: seq<real>, i: nat)
    requires |v| < 256 && OneShot(t, v, i)
    ensures if i + 1 < |v| then OneShot(Step(t, Fired), v, i + 1) else Ended(Step(t, Fired))
  {
  }

  lemma OneExpiryMore(s: Led, v: seq<real>, k: nat)
    requires k < |v| < 256 && OneShot(After(s, k), v, k)
    ensures if k + 1 < |v| then OneShot(After(s, k + 1), v, k + 1) else Ended(After(s, k + 1))
  {
    OneShotGoesOn(After(s, k), v, k);
  }

  lemma {:induction false} OneShotCycle(s: Led, v: seq<real>, k: nat)
    requires 2 <= |v| < 256 && k <= |v|
    ensures k < |v| ==> OneShot(After(s.SetCicle(v, true), k), v, k)
    ensures k == |v| ==> Ended(After(s.SetCicle(v, true), k))
  {
    if k == 0 {
      OneShotStarts(s, v);
    } else {
      OneShotCycle(s, v, k - 1);
      OneExpiryMore(s.SetCicle(v, true), v, k - 1);
    }
  }

  lemma OneShotStarts(s: Led, v: seq<real>)
    requires |v| >= 2
    ensures OneShot(After(s.SetCicle(v, true), 0), v, 0)
  {
  }

  /** A longer one never ends: the byte index wraps before it reaches the size. */
  lemma {:induction false} LongOneShot(s: Led, v: seq<real>, k: nat)
    requires |v| >= 256
    ensures var t := After(s.SetCicle(v, true), k);
            t.mode == Cicle && t.timer.Some? && t.cicleVector == v
  {
    if k > 0 {
      LongOneShot(s, v, k - 1);
    }
  }

  /** So a one-shot cycle ends if and only if it has fewer than 256 intervals. */
  lemma OneShotEnds(s: Led, v: seq<real>)
    requires |v| >= 2
    ensures (exists k: nat :: After(s.SetCicle(v, true), k).mode == Manual) <==> |v| < 256
  {
    if |v| < 256 {
      OneShotCycle(s, v, |v|);
      assert After(s.SetCicle(v, true), |v|).mode == Manual;
    } else {
      forall k: nat
        ensures After(s.SetCicle(v, true), k).mode != Manual
      {
        LongOneShot(s, v, k);
      }
    }
  }

  // ----- the code

  class Handler {
    var pin: bool
    var mode: LedMode
    const activeHigh: bool
    var cicleVector: seq<real>
    var cicleIndex: uint8
    var oneTime: bool
    var timer: Option<real>

    function Now(): Led
      reads this
    {
      Led(activeHigh, pin, mode, cicleVector, cicleIndex, oneTime, timer)
    }

    constructor (activeHigh: bool)
      ensures Now().Inv() && mode == Manual && !Now().IsOn() && this.activeHigh == activeHigh
    {
      this.activeHigh := activeHigh;
      mode, timer := Manual, None;
      new;
      SetOff();
    }

    method SetOn()
      modifies this
      ensures Now() == old(Now()).SetTo(true)
    {
      pin := if activeHigh then true else false;
    }

    method SetOff()
      modifies this
      ensures Now() == old(Now()).SetTo(false)
    {
      pin := if activeHigh then false else true;
    }

    method SetManual(on: bool)
      modifies this
      ensures Now() == Step(old(Now()), Manually(on))
    {
      mode := Manual;
      timer := None;
      if on {
        SetOn();
      } else {
        SetOff();
      }
    }

    method Toggle()
      modifies this
      ensures Now() == Step(old(Now()), Toggled)
    {
      mode := Manual;
      timer := None;
      pin := !pin;
    }

    method SetCicle(v: seq<real>, once: bool)
      modifies this
      ensures Now() == Step(old(Now()), Cicled(v, once))
    {
      if |v| < 2 {
        return;
      }
      cicleVector := v;
      cicleIndex := 0;
      oneTime := once;
      mode := Cicle;
      SetOn();
      timer := Some(cicleVector[0]);
    }

    method CicleCallback()
      requires timer.Some? && Now().Inv()
      modifies this
      ensures Now() == Step(old(Now()), Fired)
    {
      timer := None;
      cicleIndex := (cicleIndex + 1) % 256;
      if cicleIndex >= |cicleVector| {
        if oneTime {
          SetManual(false);
          return;
        } else {
          cicleIndex := 0;
        }
      }
      if cicleIndex % 2 == 0 {
        SetOn();
      } else {
        SetOff();
      }
      timer := Some(cicleVector[cicleIndex]);
    }
  }
}
