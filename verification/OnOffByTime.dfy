/** Switching by two times of day. */
module OnOffByTime {
  import opened Machine
  import opened Binary32

  datatype Times = Times(onHour: uint8, onMinute: uint8, offHour: uint8, offMinute: uint8) {
    function On(): nat {
      onHour * 60 + onMinute
    }

    function Off(): nat {
      offHour * 60 + offMinute
    }

    predicate OfDay() {
      onHour < 24 && onMinute < 60 && offHour < 24 && offMinute < 60
    }

    /** getDimming: when off comes before on, a day is added to off and to now. */
    function Level(hour: uint8, minute: uint8): nat {
      var now := hour * 60 + minute;
      var wraps := Off() < On();
      var off, now' := if wraps then Off() + 1440 else Off(), if wraps then now + 1440 else now;
      if now' <= off && now' >= On() then ONE else 0
    }
  }

  /** The first moment from `from` on at which the time of day is `now`. */
  function NextComing(from: nat, now: nat): nat {
    from + (now + 1440 - from % 1440) % 1440
  }

  /** From the on time to the off time, or to the off time a day later when off comes before on,
      both included, round the clock. */
  predicate LitRoundTheClock(t: Times, now: nat) {
    NextComing(t.On(), now) <= if t.Off() < t.On() then t.Off() + 1440 else t.Off()
  }

  /** The moment that the code compares with the on time and the off time. */
  function LooksAt(t: Times, now: nat): nat {
    if t.Off() < t.On() then now + 1440 else now
  }

  predicate AgreesAt(t: Times, now: nat)
    requires now < 1440
  {
    t.Level(now / 60, now % 60) == ONE <==> LitRoundTheClock(t, now)
  }

  /** Between two times of the day the code lights exactly this interval, except over midnight
      from the on time until midnight, where it stays dark: 18:00 to 06:00 is lit only up to
      06:00. */
  lemma LitOfDay(t: Times, now: nat)
    requires t.OfDay() && now < 1440
    ensures AgreesAt(t, now) <==> !(t.Off() < t.On() <= now)
  {
    LitAt(t, now);
    ComingOfDay(t.On(), now);
  }

  lemma ComingOfDay(from: nat, now: nat)
    requires from < 1440 && now < 1440
    ensures NextComing(from, now) == if now < from then now + 1440 else now
  {
  }

  lemma ComingIs(from: nat, now: nat, days: nat)
    requires now < 1440 && from <= now + 1440 * days < from + 1440
    ensures NextComing(from, now) == now + 1440 * days
  {
  }

  /** For any four bytes: the code disagrees when the interval is met on another day than the one
      the code looks at, the first day when on does not come after off and the second when it does. */
  lemma LitExactly(t: Times, now: nat)
    requires now < 1440
    ensures AgreesAt(t, now) <==> (NextComing(t.On(), now) == LooksAt(t, now) || !LitRoundTheClock(t, now))
  {
    LitAt(t, now);
  }

  /** For any four bytes: whether the code is right at every time of the day. */
  lemma RightAllDay(t: Times)
    ensures (forall now: nat :: now < 1440 ==> AgreesAt(t, now)) <==> Dependable(t)
  {
    if Dependable(t) {
      forall now: nat | now < 1440
        ensures AgreesAt(t, now)
      {
        LitExactly(t, now);
        RightThen(t, now);
      }
    } else {
      var now := WrongTime(t);
      LitExactly(t, now);
      WrongThen(t);
      assert !AgreesAt(t, now);
    }
  }

  lemma RightThen(t: Times, now: nat)
    requires Dependable(t) && now < 1440
    ensures NextComing(t.On(), now) == LooksAt(t, now) || !LitRoundTheClock(t, now)
  {
    var wraps := t.Off() < t.On();
    if !(wraps && t.Off() + 1440 < t.On()) {
      if LooksAt(t, now) >= t.On() {
        ComingIs(t.On(), now, if wraps then 1 else 0);
      } else {
        ComingIs(t.On(), now, if wraps then 2 else 1);
      }
    }
  }

  /** A time at which the code is wrong. */
  function WrongTime(t: Times): nat {
    if t.Off() < t.On() then
      if t.On() < 1440 then 1439 else if t.On() < 2880 then 0 else t.On() % 1440
    else
      if t.On() < 1440 then 0 else t.On() % 1440
  }

  lemma WrongThen(t: Times)
    requires !Dependable(t)
    ensures NextComing(t.On(), WrongTime(t)) != LooksAt(t, WrongTime(t)) && LitRoundTheClock(t, WrongTime(t))
  {
    var now := WrongTime(t);
    var wraps := t.Off() < t.On();
    if t.On() < 1440 {
      ComingIs(t.On(), now, if wraps then 0 else 1);
    } else if wraps && t.On() < 2880 {
      ComingIs(t.On(), now, 2);
    } else {
      ComingIs(t.On(), now, t.On() / 1440);
    }
  }

  /** An interval of one day, from times that are less than 1440 minutes or from midnight on. Or,
      with off before on: on is on the second day and off on the first, or the interval is empty. */
  predicate Dependable(t: Times) {
    if t.Off() < t.On() then (1440 <= t.On() < 2880 && t.Off() < 1440) || t.Off() + 1440 < t.On()
    else t.On() == 0 || (t.On() < 1440 && t.Off() < 1440)
  }

  /** For any four bytes, times of the day or not: whether there is a time of day at which the
      light is on. */
  lemma EverLit(t: Times)
    ensures (exists now: nat :: now < 1440 && t.Level(now / 60, now % 60) == ONE)
       <==> (if t.Off() < t.On() then t.On() <= t.Off() + 1440 && t.On() < 2880 else t.On() < 1440)
  {
    if t.Off() < t.On() {
      if t.On() <= t.Off() + 1440 && t.On() < 2880 {
        var now := if t.On() <= 1440 then 0 else t.On() - 1440;
        LitAt(t, now);
      }
    } else if t.On() < 1440 {
      LitAt(t, t.On());
    }
    forall now: nat | now < 1440
      ensures t.Level(now / 60, now % 60) == ONE <==> LitThen(t, now)
    {
      LitAt(t, now);
    }
  }

  predicate LitThen(t: Times, now: nat) {
    if t.Off() < t.On() then t.On() <= now + 1440 && now <= t.Off() else t.On() <= now <= t.Off()
  }

  lemma LitAt(t: Times, now: nat)
    requires now < 1440
    ensures t.Level(now / 60, now % 60) == ONE <==> LitThen(t, now)
  {
    assert now / 60 * 60 + now % 60 == now;
  }

  /** The factory setting, at eight in the evening. */
  lemma DarkAtEight()
    ensures Times(18, 0, 6, 0).Level(20, 0) == 0 && LitRoundTheClock(Times(18, 0, 6, 0), 20 * 60)
  {
  }

  class Clock {
    var onHour: uint8
    var onMinute: uint8
    var offHour: uint8
    var offMinute: uint8

    function Now(): Times
      reads this
    {
      Times(onHour, onMinute, offHour, offMinute)
    }

    constructor (onHour: uint8, onMinute: uint8, offHour: uint8, offMinute: uint8)
      ensures Now() == Times(onHour, onMinute, offHour, offMinute)
    {
      this.onHour, this.onMinute, this.offHour, this.offMinute := onHour, onMinute, offHour, offMinute;
    }

    method SetOnOffTime(onHour: uint8, onMinute: uint8, offHour: uint8, offMinute: uint8)
      modifies this
      ensures Now() == Times(onHour, onMinute, offHour, offMinute)
    {
      this.onHour := onHour;
      this.onMinute := onMinute;
      this.offHour := offHour;
      this.offMinute := offMinute;
    }

    method GetDimming(hour: uint8, minute: uint8) returns (dimming: nat)
      ensures dimming == Now().Level(hour, minute)
    {
      var absMinuteOn: uint16 := onHour * 60 + onMinute;
      var absMinuteOff: uint16 := offHour * 60 + offMinute;
      var absMinuteCurrent: uint16 := hour * 60 + minute;
      if absMinuteOff < absMinuteOn {
        absMinuteOff := absMinuteOff + 24 * 60;
        absMinuteCurrent := absMinuteCurrent + 24 * 60;
      }
      dimming := 0;
      if absMinuteCurrent <= absMinuteOff && absMinuteCurrent >= absMinuteOn {
        dimming := ONE;
      }
    }
  }
}
