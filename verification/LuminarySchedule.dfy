/** When uplinks happen, and how long the delays between turns last. */
module LuminarySchedule {
  import opened Machine
  import opened Remainders
  import opened LuminaryModel
  import opened LightController
  import opened LuminaryStorage
  import opened LuminaryCommands

  function Max1(n: nat): nat {
    if n < 1 then 1 else n
  }

  /** The counter never wraps and ends each turn between 1 and the uplink period. */
  lemma CounterRange(s: State, env: Env)
    requires s.Sound() && env.Sound()
    ensures Iterated(s, env).loopsCount == (if s.Due() then 0 else s.loopsCount) + 1
    ensures 1 <= Iterated(s, env).loopsCount <= Max1(Iterated(s, env).config.loopsToSend)
  {
    ReadySound(s, env);
  }

  /** No pending request, no packet, no change of level and no demonstration. */
  predicate Quiet(s: State, turn: Turn)
    requires s.Sound() && turn.Sound()
  {
    && !s.resetting && !s.bypass
    && (forall i :: 0 <= i < |turn.arrivals| ==> turn.arrivals[i] == [])
    && Ready(s, turn.env).config.mode != DEMO
    && Ready(s, turn.env).lastDimming == s.lastDimming
  }

  lemma {:induction false} QuietDelay(s: State, i: nat, n: nat, arrivals: Arrivals)
    requires s.Sound() && NonEmpty(arrivals) && !s.bypass && s.config.mode != DEMO
    requires forall i :: 0 <= i < |arrivals| ==> arrivals[i] == []
    ensures Waited(s, i, n, arrivals) == s
    decreases n - i
  {
    if i < n && !s.resetting {
      assert ArrivalsAt(arrivals, i) == [];
      assert ParsedAll(s, ArrivalsAt(arrivals, i)) == s;
      QuietDelay(s, i + 1, n, arrivals);
    }
  }

  lemma QuietCount(s: State, turn: Turn)
    requires s.Sound() && turn.Sound() && Quiet(s, turn)
    ensures var t := Cycled(s, turn.env, turn.roll, turn.arrivals);
      && t.loopsCount == (if s.Due() then 0 else s.loopsCount) + 1
      && t.config.loopsToSend == s.config.loopsToSend && t.config.loopDelay == s.config.loopDelay && !t.resetting
  {
    ReadySound(s, turn.env);
    CounterRange(s, turn.env);
    var t := Iterated(s, turn.env);
    QuietDelay(t, 0, ThisDelay(t.config.loopDelay, turn.roll), turn.arrivals);
  }

  predicate QuietAll(s: State, turns: seq<Turn>)
    requires s.Sound() && SoundTurns(turns)
  {
    forall i :: 0 <= i < |turns| ==> QuietAt(s, turns, i)
  }

  predicate QuietAt(s: State, turns: seq<Turn>, i: nat)
    requires s.Sound() && SoundTurns(turns) && i < |turns|
  {
    Quiet(Turned(s, turns[..i]), turns[i])
  }

  /** The counter after k quiet turns that started at 1. */
  function CountAfter(k: nat, send: nat): nat {
    if k == 0 then 1 else (if CountAfter(k - 1, send) >= send then 0 else CountAfter(k - 1, send)) + 1
  }

  lemma {:induction false} CountIsRemainder(k: nat, send: nat)
    ensures CountAfter(k, send) == 1 + k % Max1(send)
  {
    if k > 0 {
      CountIsRemainder(k - 1, send);
      NextRemainder(k - 1, Max1(send));
    }
  }

  /** The counter, the period and the loop delay. */
  datatype Meter = Meter(count: nat, send: nat, delay: uint16)

  predicate Counts(m: Meter, next: Meter) {
    next == Meter((if m.count >= m.send then 0 else m.count) + 1, m.send, m.delay)
  }

  lemma {:induction false} MetersCount(meters: seq<Meter>, k: nat)
    requires k < |meters| && meters[0].count == 1
    requires forall i, j :: 0 <= i < |meters| && 0 <= j < |meters| && j == i + 1 ==> Counts(meters[i], meters[j])
    ensures meters[k] == Meter(CountAfter(k, meters[0].send), meters[0].send, meters[0].delay)
    decreases k
  {
    if k > 0 {
      MetersCount(meters, k - 1);
      assert Counts(meters[k - 1], meters[k]);
    }
  }

  function MeterOf(s: State): Meter {
    Meter(s.loopsCount, s.config.loopsToSend, s.config.loopDelay)
  }

  function MeterAt(s: State, turns: seq<Turn>, k: nat): Meter
    requires s.Sound() && SoundTurns(turns) && k <= |turns|
  {
    MeterOf(Turned(s, turns[..k]))
  }

  lemma QuietTurnCounts(s: State, turns: seq<Turn>, i: nat, j: nat)
    requires s.Sound() && SoundTurns(turns) && j == i + 1 <= |turns| && QuietAt(s, turns, i)
    ensures Counts(MeterAt(s, turns, i), MeterAt(s, turns, j))
  {
    OneTurnMore(s, turns, i);
    QuietCount(Turned(s, turns[..i]), turns[i]);
  }

  lemma OneTurnMore(s: State, turns: seq<Turn>, i: nat)
    requires s.Sound() && SoundTurns(turns) && i < |turns|
    ensures Turned(s, turns[..i + 1]) == Cycled(Turned(s, turns[..i]), turns[i].env, turns[i].roll, turns[i].arrivals)
  {
    assert turns[..i + 1][..i] == turns[..i];
  }

  /** The meters of a quiet run, from the start to the end. */
  lemma MetersOf(s: State, turns: seq<Turn>) returns (meters: seq<Meter>)
    requires s.Sound() && SoundTurns(turns) && QuietAll(s, turns)
    ensures |meters| == |turns| + 1
    ensures forall k :: 0 <= k <= |turns| ==> meters[k] == MeterAt(s, turns, k)
    ensures forall i, j :: 0 <= i < |meters| && 0 <= j < |meters| && j == i + 1 ==> Counts(meters[i], meters[j])
  {
    meters := seq(|turns| + 1, k requires 0 <= k <= |turns| => MeterAt(s, turns, k));
    forall i, j | 0 <= i < |meters| && 0 <= j < |meters| && j == i + 1
      ensures Counts(meters[i], meters[j])
    {
      assert QuietAt(s, turns, i);
      QuietTurnCounts(s, turns, i, j);
    }
  }

  lemma QuietCounts(s: State, turns: seq<Turn>, k: nat)
    requires s.Sound() && SoundTurns(turns) && QuietAll(s, turns) && s.loopsCount == 1 && k <= |turns|
    ensures MeterAt(s, turns, k) == Meter(CountAfter(k, s.config.loopsToSend), s.config.loopsToSend, s.config.loopDelay)
  {
    var meters := MetersOf(s, turns);
    assert turns[..0] == [];
    assert meters[0] == MeterAt(s, turns, 0) && meters[k] == MeterAt(s, turns, k);
    MetersCount(meters, k);
  }

  /** After an uplink turn, counting quiet turns from 1, the uplinks fall on the multiples of
      the period: they are exactly max(1, loopsToSend) turns apart. */
  lemma UplinksEvenlySpaced(s: State, turns: seq<Turn>)
    requires s.Sound() && SoundTurns(turns) && QuietAll(s, turns) && s.loopsCount == 1
    ensures Turned(s, turns).Due() <==> (|turns| + 1) % Max1(s.config.loopsToSend) == 0
  {
    QuietCounts(s, turns, |turns|);
    assert turns[..|turns|] == turns;
    CountIsRemainder(|turns|, s.config.loopsToSend);
    NextRemainder(|turns|, Max1(s.config.loopsToSend));
  }

  // ----- the bypass

  /** The delay is what was configured, give or take ten seconds, unless it overflows. */
  lemma DelayRange(loopDelay: uint16, roll: nat)
    requires 30 <= loopDelay && roll <= 20
    ensures loopDelay <= 65525 ==> 20 <= ThisDelay(loopDelay, roll) == loopDelay + roll - 10 <= 65535
    ensures ThisDelay(loopDelay, roll) == 0 <==> loopDelay + roll == 65546
  {
  }

  /** A bypass that is pending when a turn ends is consumed in its delay, making the next turn
      an uplink turn, if and only if the delay has not overflowed to nothing. */
  lemma BypassConsumed(s: State, roll: nat, arrivals: Arrivals)
    requires s.Sound() && NonEmpty(arrivals) && roll <= 20 && s.bypass && !s.resetting && s.config.loopDelay >= 30
    ensures var t := Waited(s, 0, ThisDelay(s.config.loopDelay, roll), arrivals);
      && (s.config.loopDelay + roll != 65546 ==> !t.bypass && t.Due())
      && (s.config.loopDelay + roll == 65546 ==> t == s)
  {
    DelayRange(s.config.loopDelay, roll);
  }

  /** A bypass that a turn finds pending, as a packet in the last second of a delay leaves it, or
      that its own change of level asks for, ends its delay at once and makes the next turn an
      uplink turn; without one the delay is not cut short before its first second. */
  lemma BypassServed(s: State, turn: Turn)
    requires s.Sound() && turn.Sound() && !s.resetting && 30 <= s.config.loopDelay && s.config.loopDelay + turn.roll != 65546
    ensures var t := Cycled(s, turn.env, turn.roll, turn.arrivals);
      var asked := s.bypass || (Ready(s, turn.env).lastDimming != s.lastDimming && !s.Due());
      && (asked ==> TurnSeconds(s, turn) == 0 && t.Due() && !t.bypass)
      && (!asked ==> TurnSeconds(s, turn) > 0)
  {
    ReadySound(s, turn.env);
    BypassAfter(s, turn.env);
    DelayRange(s.config.loopDelay, turn.roll);
  }

  lemma BypassAfter(s: State, env: Env)
    requires s.Sound() && env.Sound()
    ensures Iterated(s, env).bypass <==> s.bypass || (Ready(s, env).lastDimming != s.lastDimming && !s.Due())
    ensures Iterated(s, env).resetting == s.resetting && Iterated(s, env).config.loopDelay == s.config.loopDelay
  {
  }

  /** A change of level is reported in the same turn, if that is an uplink turn, or makes the
      next one an uplink turn; only a delay that overflows to nothing leaves it to the count. */
  lemma DimmingChangeReported(s: State, turn: Turn)
    requires s.Sound() && turn.Sound() && !s.resetting && s.config.loopDelay >= 30
    requires Ready(s, turn.env).lastDimming != s.lastDimming && !s.Due()
    ensures Cycled(s, turn.env, turn.roll, turn.arrivals).Due()
       <==> s.config.loopDelay + turn.roll != 65546 || s.loopsCount + 1 >= s.config.loopsToSend
  {
    ReadySound(s, turn.env);
    CounterRange(s, turn.env);
    ChangeAsksForUplink(s, turn.env);
    BypassConsumed(Iterated(s, turn.env), turn.roll, turn.arrivals);
  }

  lemma ChangeAsksForUplink(s: State, env: Env)
    requires s.Sound() && env.Sound()
    requires Ready(s, env).lastDimming != s.lastDimming && !s.Due()
    ensures Iterated(s, env).bypass && Iterated(s, env).resetting == s.resetting
    ensures Iterated(s, env).config.loopDelay == s.config.loopDelay
  {
  }

  // ----- how long the delay lasts

  /** No packet arrives before second k. */
  predicate SilentTo(arrivals: Arrivals, k: nat) {
    forall i :: 0 <= i < |arrivals| && i < k ==> arrivals[i] == []
  }

  /** The seconds of a delay of n seconds that nothing disturbs. */
  function Undisturbed(s: State, n: nat): nat {
    if s.config.mode == DEMO && n > 60 then 60 else n
  }

  lemma SilentSecond(s: State, i: nat, n: nat, arrivals: Arrivals)
    requires s.Sound() && NonEmpty(arrivals) && ArrivalsAt(arrivals, i) == [] && GoesOn(s, i, n)
    ensures Counting(s).Sound()
    ensures Seconds(s, i, n, arrivals) == 1 + Seconds(Counting(s), i + 1, n, arrivals)
    ensures Waited(s, i, n, arrivals) == Waited(Counting(s), i + 1, n, arrivals)
  {
    assert ParsedAll(Counting(s), []) == Counting(s);
  }

  /** With no packet the delay lasts all its seconds, in the demonstration 60 at most, after which
      the next turn is an uplink turn. */
  lemma {:induction false} SilentDelay(s: State, i: nat, n: nat, arrivals: Arrivals)
    requires s.Sound() && NonEmpty(arrivals) && !s.bypass && !s.resetting
    requires SilentTo(arrivals, n) && i <= Undisturbed(s, n)
    ensures i + Seconds(s, i, n, arrivals) == Undisturbed(s, n)
    ensures Waited(s, i, n, arrivals) == if i < n then Counting(s) else s
    decreases n - i
  {
    if i < Undisturbed(s, n) {
      SilentSecond(s, i, n, arrivals);
      SilentDelay(Counting(s), i + 1, n, arrivals);
    }
  }

  /** From second i the delay ends with second k, and what the packet says is done; if that is not
      the last second, the next turn is an uplink turn. */
  predicate EndsWith(s: State, i: nat, k: nat, n: nat, arrivals: Arrivals, rx: seq<uint8>)
    requires s.Sound() && NonEmpty(arrivals) && rx != []
  {
    var t := Waited(s, i, n, arrivals);
    && i + Seconds(s, i, n, arrivals) == k + 1
    && (k + 1 < n ==> t.Due() && !t.bypass)
    && t.config == Commanded(s.config, rx)
  }

  /** A packet ends the delay with the second in which it comes. */
  lemma {:induction false} PacketEndsDelay(s: State, i: nat, k: nat, n: nat, arrivals: Arrivals, rx: seq<uint8>)
    requires s.Sound() && NonEmpty(arrivals) && !s.bypass && !s.resetting
    requires SilentTo(arrivals, k) && i <= k < Undisturbed(s, n) && ArrivalsAt(arrivals, k) == [rx]
    requires rx != [] && rx[0] as char != 'R'
    ensures EndsWith(s, i, k, n, arrivals, rx)
    decreases k - i
  {
    if i < k {
      PacketEndsDelay(Counting(s), i + 1, k, n, arrivals, rx);
      EndsLater(s, i, k, n, arrivals, rx);
    } else {
      PacketSecond(s, k, n, arrivals, rx);
    }
  }

  lemma EndsLater(s: State, i: nat, k: nat, n: nat, arrivals: Arrivals, rx: seq<uint8>)
    requires s.Sound() && NonEmpty(arrivals) && rx != [] && ArrivalsAt(arrivals, i) == [] && GoesOn(s, i, n)
    requires EndsWith(Counting(s), i + 1, k, n, arrivals, rx)
    ensures EndsWith(s, i, k, n, arrivals, rx)
  {
    SilentSecond(s, i, n, arrivals);
  }

  lemma PacketSecond(s: State, k: nat, n: nat, arrivals: Arrivals, rx: seq<uint8>)
    requires s.Sound() && NonEmpty(arrivals) && GoesOn(s, k, n) && ArrivalsAt(arrivals, k) == [rx]
    requires rx != [] && rx[0] as char != 'R'
    ensures EndsWith(s, k, k, n, arrivals, rx)
  {
    ParsedAlone(Counting(s), rx);
    var u := ParsedAll(Counting(s), [rx]);
    assert u.bypass && !u.resetting;
  }

  /** The seconds of the delay of a turn. */
  function TurnSeconds(s: State, turn: Turn): nat
    requires s.Sound() && turn.Sound()
  {
    ReadySound(s, turn.env);
    var t := Iterated(s, turn.env);
    Seconds(t, 0, ThisDelay(t.config.loopDelay, turn.roll), turn.arrivals)
  }

  lemma QuietTurnSeconds(s: State, turn: Turn)
    requires s.Sound() && turn.Sound() && Quiet(s, turn)
    ensures TurnSeconds(s, turn) == ThisDelay(s.config.loopDelay, turn.roll)
  {
    ReadySound(s, turn.env);
    var t := Iterated(s, turn.env);
    SilentDelay(t, 0, ThisDelay(t.config.loopDelay, turn.roll), turn.arrivals);
  }

  function SecondsAt(s: State, turns: seq<Turn>, k: nat): nat
    requires s.Sound() && SoundTurns(turns) && k < |turns|
  {
    TurnSeconds(Turned(s, turns[..k]), turns[k])
  }

  // ----- loops as commanded

  /** The command to loop every d seconds and send every n loops, heard in a delay that has another
      second to go, ends that delay; the next turn is an uplink turn. */
  lemma LoopEveryHeard(s: State, d: uint16, n: uint8, k: nat, m: nat)
    requires s.Sound() && !s.resetting && 30 <= d && k < m
    ensures Parsed(s, Packet(LoopEvery(d, n))).Sound()
    ensures var u := Waited(Parsed(s, Packet(LoopEvery(d, n))), k, m, []);
      u.Due() && !u.bypass && !u.resetting && u.config.loopDelay == d && u.config.loopsToSend == n
  {
    CommandObeyed(s, LoopEvery(d, n), Packet(LoopEvery(d, n)));
    ParsedSound(s, Packet(LoopEvery(d, n)));
  }

  /** The uplink turn, in which the level may change. */
  lemma UplinkTurn(u: State, first: Turn)
    requires u.Sound() && first.Sound() && u.Due() && !u.bypass && !u.resetting
    requires SilentTo(first.arrivals, |first.arrivals|) && Ready(u, first.env).config.mode != DEMO
    ensures var v := Cycled(u, first.env, first.roll, first.arrivals);
      v.loopsCount == 1 && v.config.loopDelay == u.config.loopDelay && v.config.loopsToSend == u.config.loopsToSend
  {
    ReadySound(u, first.env);
    CounterRange(u, first.env);
    var t := Iterated(u, first.env);
    QuietDelay(t, 0, ThisDelay(t.config.loopDelay, first.roll), first.arrivals);
  }

  lemma QuietSeconds(s: State, turns: seq<Turn>, i: nat)
    requires s.Sound() && SoundTurns(turns) && QuietAll(s, turns) && s.loopsCount == 1
    requires i < |turns| && 30 <= s.config.loopDelay <= 65525
    ensures SecondsAt(s, turns, i) == s.config.loopDelay + turns[i].roll - 10
  {
    assert QuietAt(s, turns, i) && turns[i].Sound();
    QuietCounts(s, turns, i);
    QuietTurnSeconds(Turned(s, turns[..i]), turns[i]);
    DelayRange(s.config.loopDelay, turns[i].roll);
  }

  /** What the command to loop every d seconds and to send every n loops leaves at the end of the
      uplink turn that it brings. */
  function Commenced(s: State, d: uint16, n: uint8, k: nat, m: nat, first: Turn): (v: State)
    requires s.Sound() && !s.resetting && 30 <= d && k < m && first.Sound()
    ensures v.Sound()
  {
    LoopEveryHeard(s, d, n, k, m);
    Cycled(Waited(Parsed(s, Packet(LoopEvery(d, n))), k, m, []), first.env, first.roll, first.arrivals)
  }

  lemma CommencedAs(s: State, d: uint16, n: uint8, k: nat, m: nat, first: Turn)
    requires s.Sound() && !s.resetting && 30 <= d && k < m && first.Sound() && SilentTo(first.arrivals, |first.arrivals|)
    requires Parsed(s, Packet(LoopEvery(d, n))).Sound()
    requires Ready(Waited(Parsed(s, Packet(LoopEvery(d, n))), k, m, []), first.env).config.mode != DEMO
    ensures var v := Commenced(s, d, n, k, m, first);
      v.loopsCount == 1 && v.config.loopDelay == d && v.config.loopsToSend == n
  {
    LoopEveryHeard(s, d, n, k, m);
    UplinkTurn(Waited(Parsed(s, Packet(LoopEvery(d, n))), k, m, []), first);
  }

  /** From then on, as long as nothing happens, every delay lasts d seconds, give or take ten, and
      every n-th turn is an uplink turn. */
  lemma LoopsAsCommanded(s: State, d: uint16, n: uint8, k: nat, m: nat, first: Turn, more: seq<Turn>)
    requires s.Sound() && !s.resetting && 30 <= d <= 65525 && k < m && first.Sound() && SilentTo(first.arrivals, |first.arrivals|)
    requires Parsed(s, Packet(LoopEvery(d, n))).Sound()
    requires Ready(Waited(Parsed(s, Packet(LoopEvery(d, n))), k, m, []), first.env).config.mode != DEMO
    requires SoundTurns(more) && QuietAll(Commenced(s, d, n, k, m, first), more)
    ensures forall i :: 0 <= i < |more| ==> SecondsAt(Commenced(s, d, n, k, m, first), more, i) == d + more[i].roll - 10
    ensures Turned(Commenced(s, d, n, k, m, first), more).Due() <==> (|more| + 1) % Max1(n) == 0
  {
    CommencedAs(s, d, n, k, m, first);
    var v := Commenced(s, d, n, k, m, first);
    UplinksEvenlySpaced(v, more);
    forall i | 0 <= i < |more|
      ensures SecondsAt(v, more, i) == d + more[i].roll - 10
    {
      QuietSeconds(v, more, i);
    }
  }
}
