/** What the record of the radio tells over a run of MAC events: each field comes from the last event
    that has something to say about it, unless the record has been cleared since. */
module MacRecord {
  import opened Machine
  import opened MacEvents

  /** The parts of the record. */
  datatype Part = Signal | Packet | Slot | Link | Join | Retries | Datarate | Condition

  /** The events that have something to say about a part; TxDone and RxError clear the record. */
  predicate Touches(e: MacEvent, part: Part) {
    || Clears(e)
    || match part
       case Signal => e.PacketRx? || e.NetworkLinkCheck?
       case Packet => e.PacketRx?
       case Slot => e.PacketRx? || e.RxTimeout?
       case Link => e.NetworkLinkCheck?
       case Join => e.JoinAccept? || e.JoinFailed?
       case Retries => e.PacketRx? || e.MissedAck?
       case Datarate => false
       case Condition => Notifies(e)
  }

  function StatusOf(e: MacEvent): Status {
    match e
    case TxTimeout => TX_TIMEOUT
    case RxTimeout(_) => RX_TIMEOUT
    case RxError(_) => RX_ERROR
    case JoinFailed => JOIN_FAIL
    case _ => OK
  }

  /** The part of the record says nothing. */
  predicate Blank(s: Radio, part: Part) {
    match part
    case Signal => s.info.rxRssi == 0 && s.info.rxSnr == 0
    case Packet => s.info.rxPort == 0 && !s.info.duplicateRx && s.info.rxBuffer == [] && !s.flags.rx && !s.flags.rxData
    case Slot => s.flags.rxSlot == 0
    case Link => s.info.demodMargin == 0 && s.info.nbGateways == 0 && !s.flags.linkCheck
    case Join => !s.flags.joinAccept
    case Retries => s.info.txNbRetries == 0
    case Datarate => s.info.txDatarate == 0
    case Condition => s.info.status == OK && !s.flags.tx
  }

  /** The part of the record says what the event said; signal-to-noise ratio and margin are cut to a
      byte. */
  predicate Tells(s: Radio, e: MacEvent, part: Part) {
    match part
    case Signal =>
      if Clears(e) then Blank(s, part)
      else e.PacketRx? || e.NetworkLinkCheck? ==> s.info.rxRssi == e.rssi && s.info.rxSnr == e.snr % 0x100
    case Packet =>
      if Clears(e) then Blank(s, part)
      else
        e.PacketRx? ==>
          && s.info.rxPort == e.port && s.info.duplicateRx == e.dupRx && s.info.rxBuffer == e.payload
          && s.flags.rx && (s.flags.rxData <==> e.payload != [])
    case Slot =>
      if e.TxDone? then Blank(s, part) else e.PacketRx? || e.RxTimeout? || e.RxError? ==> s.flags.rxSlot == e.slot % 4
    case Link =>
      if Clears(e) then Blank(s, part)
      else
        e.NetworkLinkCheck? ==>
          s.info.demodMargin == e.margin % 0x100 && s.info.nbGateways == e.gateways && s.flags.linkCheck
    case Join => if Clears(e) then Blank(s, part) else e.JoinAccept? || e.JoinFailed? ==> s.flags.joinAccept
    case Retries => if Clears(e) then Blank(s, part) else e.PacketRx? || e.MissedAck? ==> s.info.txNbRetries == e.retries
    case Datarate => if e.TxDone? then s.info.txDatarate == e.dr else e.RxError? ==> Blank(s, part)
    case Condition =>
      Notifies(e) ==> s.info.status == StatusOf(e) && (s.flags.tx <==> e.TxDone? || e.TxTimeout?)
  }

  lemma Told(s: Radio, e: MacEvent, part: Part)
    ensures Tells(Step(s, e), e, part)
  {
  }

  lemma StillTold(s: Radio, e: MacEvent, next: MacEvent, part: Part)
    requires Tells(s, e, part) && !Touches(next, part)
    ensures Tells(Step(s, next), e, part)
  {
  }

  /** Every part of the record tells what the last event said that has something to say about it. */
  lemma {:induction false} LastTold(events: seq<MacEvent>, i: nat, part: Part)
    requires i < |events| && forall j :: i < j < |events| ==> !Touches(events[j], part)
    ensures Tells(After(events), events[i], part)
    decreases |events|
  {
    var n := |events| - 1;
    if i < n {
      LastTold(events[..n], i, part);
      StillTold(After(events[..n]), events[i], events[n], part);
    } else {
      Told(After(events[..n]), events[n], part);
    }
  }

  /** A part about which no event has had anything to say is as it was at the start. */
  lemma {:induction false} NeverTold(events: seq<MacEvent>, part: Part)
    requires forall j :: 0 <= j < |events| ==> !Touches(events[j], part)
    ensures Blank(After(events), part)
    decreases |events|
  {
    if events != [] {
      var n := |events| - 1;
      NeverTold(events[..n], part);
      StillBlank(After(events[..n]), events[n], part);
    }
  }

  lemma StillBlank(s: Radio, next: MacEvent, part: Part)
    requires Blank(s, part) && !Touches(next, part)
    ensures Blank(Step(s, next), part)
  {
  }

  /** No transmission has been done since event j. */
  predicate SinceTxDone(events: seq<MacEvent>, j: nat)
    requires j < |events|
  {
    forall k :: j < k < |events| ==> !events[k].TxDone?
  }

  /** Whether a packet, an acknowledgement and a link check have come since the last transmission was
      done; an error of reception, which clears the record, does not make them forgotten. */
  lemma {:induction false} SeenSinceTxDone(events: seq<MacEvent>)
    ensures After(events).packetReceived <==> exists j :: 0 <= j < |events| && events[j].PacketRx? && SinceTxDone(events, j)
    ensures After(events).ackReceived
       <==> (exists j :: 0 <= j < |events| && events[j].PacketRx? && events[j].ack && SinceTxDone(events, j))
    ensures After(events).linkCheckAnswered
       <==> (exists j :: 0 <= j < |events| && events[j].NetworkLinkCheck? && SinceTxDone(events, j))
    decreases |events|
  {
    if events != [] {
      var n := |events| - 1;
      SeenSinceTxDone(events[..n]);
      forall j | 0 <= j < n
        ensures SinceTxDone(events, j) <==> SinceTxDone(events[..n], j) && !events[n].TxDone?
      {
        assert SinceTxDone(events, j) ==> !events[n].TxDone?;
      }
      assert SinceTxDone(events, n);
    }
  }

  /** The record shows an acknowledgement if the last packet, or one before it since the last
      transmission was done, carried one. */
  lemma {:induction false} AckTold(events: seq<MacEvent>, i: nat)
    requires i < |events| && events[i].PacketRx?
    requires forall j :: i < j < |events| ==> !events[j].PacketRx? && !Clears(events[j])
    ensures After(events).info.txAckReceived
       <==> (exists j :: 0 <= j <= i && events[j].PacketRx? && events[j].ack && SinceTxDone(events[..i + 1], j))
    decreases |events|
  {
    if i < |events| - 1 {
      AckTold(events[..|events| - 1], i);
      assert events[..|events| - 1][..i + 1] == events[..i + 1];
    } else {
      assert events[..i + 1] == events;
      SeenSinceTxDone(events);
    }
  }
}
