/** What the node sends: answers to requests, and status reports; and when the network is joined. */
module LuminaryUplinks {
  import opened Machine
  import opened Binary32
  import opened LuminaryModel
  import opened LuminaryStorage
  import opened LuminaryModes
  import LightOutput

  // ----- the commands that ask for something

  /** One of the packets is the command. */
  predicate HeardOf(rxs: seq<seq<uint8>>, command: char) {
    exists i :: 0 <= i < |rxs| && rxs[i] != [] && rxs[i][0] as char == command
  }

  lemma HeardOfConcat(a: seq<seq<uint8>>, b: seq<seq<uint8>>, command: char)
    ensures HeardOf(a + b, command) <==> HeardOf(a, command) || HeardOf(b, command)
  {
    forall i | 0 <= i < |a|
      ensures (a + b)[i] == a[i]
    {
    }
    forall i | 0 <= i < |b|
      ensures (a + b)[|a| + i] == b[i]
    {
    }
  }

  lemma HeardOfOne(rx: seq<uint8>, command: char)
    requires rx != []
    ensures HeardOf([rx], command) <==> rx[0] as char == command
  {
    assert [rx][0] == rx;
  }

  /** The timestamp that the last command to set the clock carried. */
  function LastTime(rxs: seq<seq<uint8>>, time: Option<uint32>): Option<uint32> {
    if rxs == [] then time
    else
      var last := rxs[|rxs| - 1];
      if |last| >= 5 && last[0] as char == 'A' then Some(Word32(last[1], last[2], last[3], last[4]))
      else LastTime(rxs[..|rxs| - 1], time)
  }

  lemma {:induction false} LastTimeConcat(a: seq<seq<uint8>>, b: seq<seq<uint8>>, time: Option<uint32>)
    ensures LastTime(a + b, time) == LastTime(b, LastTime(a, time))
    decreases |b|
  {
    if b == [] {
      assert a + b == a;
    } else {
      assert (a + b)[..|a + b| - 1] == a + b[..|b| - 1];
      LastTimeConcat(a, b[..|b| - 1], time);
    }
  }

  /** A request for the settings (E), the time (H) or a synchronisation (S) is pending. */
  predicate Pending(s: State, command: char) {
    if command == 'E' then s.pendingConfig else if command == 'H' then s.pendingTimestamp else s.pendingSync
  }

  predicate Request(command: char) {
    command == 'E' || command == 'H' || command == 'S'
  }

  /** What packets do to the requests and to the clock. */
  predicate Requested(s: State, rxs: seq<seq<uint8>>, t: State) {
    && (t.pendingConfig <==> s.pendingConfig || HeardOf(rxs, 'E'))
    && (t.pendingTimestamp <==> s.pendingTimestamp || HeardOf(rxs, 'H'))
    && (t.pendingSync <==> s.pendingSync || HeardOf(rxs, 'S'))
    && t.manualTime == LastTime(rxs, s.manualTime)
    && t.isJoined == s.isJoined
  }

  lemma RequestedConcat(s: State, a: seq<seq<uint8>>, t: State, b: seq<seq<uint8>>, u: State)
    requires Requested(s, a, t) && Requested(t, b, u)
    ensures Requested(s, a + b, u)
  {
    HeardOfConcat(a, b, 'E');
    HeardOfConcat(a, b, 'H');
    HeardOfConcat(a, b, 'S');
    LastTimeConcat(a, b, s.manualTime);
  }

  lemma RequestedOne(s: State, rx: seq<uint8>)
    requires s.Sound() && rx != [] && !s.resetting
    ensures Requested(s, [rx], Parsed(s, rx))
  {
    HeardOfOne(rx, 'E');
    HeardOfOne(rx, 'H');
    HeardOfOne(rx, 'S');
    var none: seq<seq<uint8>> := [];
    assert [rx][..0] == none;
  }

  lemma {:induction false} ObeyedRequests(s: State, rxs: seq<seq<uint8>>)
    requires s.Sound() && forall i :: 0 <= i < |rxs| ==> rxs[i] != []
    ensures Requested(s, Obeyed(s, rxs), ParsedAll(s, rxs))
    decreases |rxs|
  {
    if rxs != [] {
      var front, last := rxs[..|rxs| - 1], rxs[|rxs| - 1];
      ObeyedRequests(s, front);
      var before := ParsedAll(s, front);
      if !before.resetting {
        RequestedOne(before, last);
        RequestedConcat(s, Obeyed(s, front), before, [last], Parsed(before, last));
      }
    }
  }

  lemma CountingRequests(s: State, rxs: seq<seq<uint8>>, t: State)
    requires Requested(Counting(s), rxs, t)
    ensures Requested(s, rxs, t)
  {
  }

  lemma {:induction false} HeardRequests(s: State, i: nat, n: nat, arrivals: Arrivals)
    requires s.Sound() && NonEmpty(arrivals)
    ensures Requested(s, Heard(s, i, n, arrivals), Waited(s, i, n, arrivals))
    decreases n - i
  {
    if GoesOn(s, i, n) {
      HeardRequests(ParsedAll(Counting(s), ArrivalsAt(arrivals, i)), i + 1, n, arrivals);
      RequestsOneSecond(s, i, n, arrivals);
    } else {
      DelayOver(s, i, n, arrivals);
    }
  }

  lemma RequestsOneSecond(s: State, i: nat, n: nat, arrivals: Arrivals)
    requires s.Sound() && NonEmpty(arrivals) && GoesOn(s, i, n)
    requires var u := ParsedAll(Counting(s), ArrivalsAt(arrivals, i));
      Requested(u, Heard(u, i + 1, n, arrivals), Waited(u, i + 1, n, arrivals))
    ensures Requested(s, Heard(s, i, n, arrivals), Waited(s, i, n, arrivals))
  {
    var t, now := Counting(s), ArrivalsAt(arrivals, i);
    var u := ParsedAll(t, now);
    ObeyedRequests(t, now);
    CountingRequests(s, Obeyed(t, now), u);
    OneSecond(s, i, n, arrivals);
    RequestedConcat(s, Obeyed(t, now), u, Heard(u, i + 1, n, arrivals), Waited(u, i + 1, n, arrivals));
  }

  lemma DelayOver(s: State, i: nat, n: nat, arrivals: Arrivals)
    requires s.Sound() && NonEmpty(arrivals) && !GoesOn(s, i, n)
    ensures Requested(s, Heard(s, i, n, arrivals), Waited(s, i, n, arrivals))
  {
    assert Heard(s, i, n, arrivals) == [];
  }

  // ----- over turns

  /** What a turn has to do with requests: whether it is an uplink turn, whether it finds the network
      joined, and the commands heard in its delay. */
  datatype Event = Event(uplink: bool, joined: bool, heard: seq<seq<uint8>>)

  function EventOf(s: State, turn: Turn): Event
    requires s.Sound() && turn.Sound()
  {
    Event(!s.resetting && s.Due(), turn.env.joined, HeardIn(s, turn))
  }

  function History(s: State, turns: seq<Turn>): (events: seq<Event>)
    requires s.Sound() && SoundTurns(turns)
    ensures |events| == |turns|
  {
    if turns == [] then []
    else
      var n := |turns| - 1;
      History(s, turns[..n]) + [EventOf(Turned(s, turns[..n]), turns[n])]
  }

  /** A request that was pending at the start, or that some turn heard, and no uplink turn since. */
  predicate Unanswered(pending: bool, events: seq<Event>, command: char) {
    || (pending && forall j :: 0 <= j < |events| ==> !events[j].uplink)
    || exists i :: 0 <= i < |events| && HeardOf(events[i].heard, command) && forall j :: i < j < |events| ==> !events[j].uplink
  }

  /** Some uplink turn found the network joined. */
  predicate Joined(events: seq<Event>) {
    exists i :: 0 <= i < |events| && events[i].uplink && events[i].joined
  }

  lemma UnansweredMore(pending: bool, events: seq<Event>, e: Event, command: char)
    ensures Unanswered(pending, events + [e], command)
       <==> ((Unanswered(pending, events, command) && !e.uplink) || HeardOf(e.heard, command))
  {
    var n, all := |events|, events + [e];
    assert all[n] == e && forall i :: 0 <= i < n ==> all[i] == events[i];
    if Unanswered(pending, events, command) && !e.uplink && !(pending && forall j :: 0 <= j < n ==> !events[j].uplink) {
      var i :| 0 <= i < n && HeardOf(events[i].heard, command) && forall j :: i < j < n ==> !events[j].uplink;
      assert HeardOf(all[i].heard, command);
    }
    if HeardOf(e.heard, command) {
      assert HeardOf(all[n].heard, command);
    }
  }

  lemma JoinedMore(events: seq<Event>, e: Event)
    ensures Joined(events + [e]) <==> Joined(events) || (e.uplink && e.joined)
  {
    var n, all := |events|, events + [e];
    assert all[n] == e && forall i :: 0 <= i < n ==> all[i] == events[i];
    if Joined(events) {
      var i :| 0 <= i < n && events[i].uplink && events[i].joined;
      assert all[i].uplink && all[i].joined;
    }
  }

  /** An uplink turn answers every request; what is heard in the delay waits for the next one. */
  lemma TurnRequests(s: State, turn: Turn, command: char)
    requires s.Sound() && turn.Sound() && Request(command)
    ensures var t, e := Cycled(s, turn.env, turn.roll, turn.arrivals), EventOf(s, turn);
      && (Pending(t, command) <==> (Pending(s, command) && !e.uplink) || HeardOf(e.heard, command))
      && t.manualTime == LastTime(e.heard, s.manualTime)
      && (t.isJoined <==> s.isJoined || (e.uplink && e.joined))
  {
    if !s.resetting {
      ReadySound(s, turn.env);
      var t := Iterated(s, turn.env);
      IteratedRequests(s, turn.env, command);
      IteratedJoin(s, turn.env);
      HeardRequests(t, 0, ThisDelay(t.config.loopDelay, turn.roll), turn.arrivals);
    }
  }

  lemma {:induction false} IteratedRequests(s: State, env: Env, command: char)
    requires s.Sound() && env.Sound() && Request(command)
    ensures Pending(Iterated(s, env), command) <==> Pending(s, command) && !s.Due()
  {
  }

  lemma IteratedJoin(s: State, env: Env)
    requires s.Sound() && env.Sound()
    ensures Iterated(s, env).manualTime == s.manualTime
    ensures Iterated(s, env).isJoined <==> s.isJoined || (s.Due() && env.joined)
  {
  }

  lemma {:induction false} HistoryMore(s: State, turns: seq<Turn>)
    requires s.Sound() && SoundTurns(turns) && turns != []
    ensures var n := |turns| - 1;
      && History(s, turns) == History(s, turns[..n]) + [History(s, turns)[n]]
      && History(s, turns)[n] == EventOf(Turned(s, turns[..n]), turns[n])
  {
    var n := |turns| - 1;
    assert History(s, turns) == History(s, turns[..n]) + [EventOf(Turned(s, turns[..n]), turns[n])];
  }

  lemma {:induction false} HeardMore(s: State, turns: seq<Turn>)
    requires s.Sound() && SoundTurns(turns) && turns != []
    ensures HeardAll(s, turns) == HeardAll(s, turns[..|turns| - 1]) + History(s, turns)[|turns| - 1].heard
  {
    HistoryMore(s, turns);
  }

  /** What one turn more does to a run. */
  lemma TurnOfHistory(s: State, turns: seq<Turn>, command: char)
    requires s.Sound() && SoundTurns(turns) && turns != [] && Request(command)
    ensures var n := |turns| - 1;
      var b, t, e := Turned(s, turns[..n]), Turned(s, turns), History(s, turns)[n];
      && (Pending(t, command) <==> (Pending(b, command) && !e.uplink) || HeardOf(e.heard, command))
      && t.manualTime == LastTime(e.heard, b.manualTime)
      && (t.isJoined <==> b.isJoined || (e.uplink && e.joined))
  {
    HistoryMore(s, turns);
    TurnedMore(s, turns);
    TurnRequests(Turned(s, turns[..|turns| - 1]), turns[|turns| - 1], command);
  }

  /** A request is pending exactly when it has been heard and no uplink turn has come since. */
  lemma {:induction false} PendingExactly(s: State, turns: seq<Turn>, command: char)
    requires s.Sound() && SoundTurns(turns) && Request(command)
    ensures Pending(Turned(s, turns), command) <==> Unanswered(Pending(s, command), History(s, turns), command)
    decreases |turns|
  {
    if turns != [] {
      var n := |turns| - 1;
      PendingExactly(s, turns[..n], command);
      HistoryMore(s, turns);
      TurnOfHistory(s, turns, command);
      UnansweredMore(Pending(s, command), History(s, turns[..n]), History(s, turns)[n], command);
    }
  }

  /** An uplink turn with the network joined sends the time if H has been heard since the last uplink
      turn, then the settings in force if E has, and no other answer; any other turn sends none. */
  lemma AnswersExactly(s: State, turns: seq<Turn>, env: Env)
    requires s.Sound() && SoundTurns(turns) && env.Sound()
    ensures var b, events := Turned(s, turns), History(s, turns);
      Replies(SavedIfPending(b), env)
        == if b.Due() && env.joined
           then (if Unanswered(s.pendingTimestamp, events, 'H') then [TimeMessage(env.now)] else [])
                + (if Unanswered(s.pendingConfig, events, 'E') then [ConfigMessage(Ready(b, env).config)] else [])
           else []
  {
    PendingExactly(s, turns, 'H');
    PendingExactly(s, turns, 'E');
    RepliesOf(Turned(s, turns), env);
  }

  lemma RepliesOf(b: State, env: Env)
    requires b.Sound() && env.Sound()
    ensures Replies(SavedIfPending(b), env)
         == if b.Due() && env.joined
            then (if b.pendingTimestamp then [TimeMessage(env.now)] else [])
                 + (if b.pendingConfig then [ConfigMessage(Ready(b, env).config)] else [])
            else []
  {
  }

  /** The network is joined exactly when it was at the start or some uplink turn found it so. */
  lemma {:induction false} JoinedExactly(s: State, turns: seq<Turn>)
    requires s.Sound() && SoundTurns(turns)
    ensures Turned(s, turns).isJoined <==> s.isJoined || Joined(History(s, turns))
    decreases |turns|
  {
    if turns != [] {
      var n := |turns| - 1;
      JoinedExactly(s, turns[..n]);
      HistoryMore(s, turns);
      TurnOfHistory(s, turns, 'E');
      JoinedMore(History(s, turns[..n]), History(s, turns)[n]);
    }
  }

  /** After a start: when the join before the loop or one of an uplink turn succeeded. */
  lemma JoinedFromStart(nvm: seq<uint8>, start: Start, turns: seq<Turn>)
    requires |nvm| >= NVM_SIZE && Booted(nvm, start).Sound() && SoundTurns(turns)
    ensures Turned(Booted(nvm, start), turns).isJoined <==> start.joined || Joined(History(Booted(nvm, start), turns))
  {
    JoinedExactly(Booted(nvm, start), turns);
  }

  /** A start leaves nothing from before: no request, no save, no bypass, no energy, no light. */
  lemma StartsClean(nvm: seq<uint8>, start: Start)
    requires |nvm| >= NVM_SIZE
    ensures var b := Booted(nvm, start);
      && !Pending(b, 'E') && !Pending(b, 'H') && !Pending(b, 'S') && !b.pendingSave && !b.bypass && !b.resetting
      && b.energy == 0.0 && b.lastDimming == 0 && !b.lamp.relay && b.lamp.duty == 0 && b.Due()
  {
    LightOutput.DutyRange(0);
  }

  /** The clock was last set by hand to what the last such command heard carried. */
  lemma {:induction false} TimeSetByHand(s: State, turns: seq<Turn>)
    requires s.Sound() && SoundTurns(turns)
    ensures Turned(s, turns).manualTime == LastTime(HeardAll(s, turns), s.manualTime)
    decreases |turns|
  {
    if turns != [] {
      var n := |turns| - 1;
      TimeSetByHand(s, turns[..n]);
      HistoryMore(s, turns);
      TurnOfHistory(s, turns, 'E');
      HeardMore(s, turns);
      LastTimeConcat(HeardAll(s, turns[..n]), History(s, turns)[n].heard, s.manualTime);
    }
  }

  // ----- reports

  /** A status report gets through in a turn exactly when it is an uplink turn, the sending succeeds,
      and the network was joined at the start or in some uplink turn up to this one. */
  lemma ReportsExactly(s: State, turns: seq<Turn>, env: Env)
    requires s.Sound() && SoundTurns(turns) && env.Sound()
    ensures var b := Turned(s, turns);
      Sends(Ready(b, env), env) <==> b.Due() && env.sendOk && (s.isJoined || env.joined || Joined(History(s, turns)))
  {
    JoinedExactly(s, turns);
    SendsOf(Turned(s, turns), env);
  }

  lemma SendsOf(b: State, env: Env)
    requires b.Sound() && env.Sound()
    ensures Sends(Ready(b, env), env) <==> b.Due() && env.sendOk && (b.isJoined || env.joined)
  {
  }

  // ----- what the messages tell

  /** The report tells the power, the level in percent, the energy and the mode. */
  lemma StatusTells(n: nat, power: real, energy: real, mode: uint8)
    requires n <= 100 && 0.0 <= power < 65536.0 && 0.0 <= energy < 65536.0
    ensures var m := LightStatus(Hundredths(n), power, energy, mode);
      && |m| == 7 && m[0] as char == 'S'
      && Word16(m[1], m[2]) as real <= power < Word16(m[1], m[2]) as real + 1.0
      && m[3] == (if n == 53 || n == 59 then n - 1 else n)
      && Word16(m[4], m[5]) as real <= energy < Word16(m[4], m[5]) as real + 1.0
      && m[6] == mode
  {
    PercentHundredths(n);
    WordTells(power);
    WordTells(energy);
  }

  lemma WordTells(x: real)
    requires 0.0 <= x < 65536.0
    ensures Word(x) as real <= x < Word(x) as real + 1.0
    ensures Word16(Word(x) / 0x100, Word(x) % 0x100) == Word(x)
  {
    assert x.Floor as real <= x < x.Floor as real + 1.0;
    assert x.Floor < 65536;
  }

  /** The answer to E tells the mode, the manual level in percent, the loop delay and the loops
      between reports. */
  lemma ConfigTells(config: Settings, n: nat)
    requires n <= 100 && config.manual == Hundredths(n)
    ensures var m := ConfigMessage(config);
      && |m| == 6 && m[0] as char == 'E' && m[1] == config.mode
      && m[2] == (if n == 53 || n == 59 then n - 1 else n)
      && Word16(m[3], m[4]) == config.loopDelay && m[5] == config.loopsToSend
  {
    PercentHundredths(n);
  }

  /** The answer to H tells the time, in the form in which the command A carries it. */
  lemma TimeTells(now: nat)
    ensures var m := TimeMessage(now);
      |m| == 5 && m[0] as char == 'H' && Word32(m[1], m[2], m[3], m[4]) == now % 0x1_0000_0000
  {
    LowWord(now);
    LowWord(now / 0x1_0000);
    assert now / 0x1_0000 / 0x100 == now / 0x100_0000;
  }

  lemma LowWord(n: nat)
    ensures n % 0x1_0000 == n / 0x100 % 0x100 * 0x100 + n % 0x100
  {
  }
}
