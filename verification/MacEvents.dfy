/** MAC events: the callbacks of the radio stack fill one shared record, and each notification
    hands whatever packet the record holds to the receive callback. */
module MacEvents {
  import opened Machine

  datatype Status = OK | ERROR | TX_TIMEOUT | RX_TIMEOUT | RX_ERROR | JOIN_FAIL

  datatype Flags = Flags(tx: bool, rx: bool, rxData: bool, rxSlot: nat, linkCheck: bool, joinAccept: bool)

  const NO_FLAGS := Flags(false, false, false, 0, false, false)

  /** rxBuffer: RxBufferSize bytes at the pointer RxBuffer, which points into the stack's buffer;
      they are taken to stay as they were when the packet came. */
  datatype Info = Info(
    status: Status, txAckReceived: bool, duplicateRx: bool, txNbRetries: uint8, txDatarate: uint8,
    rxPort: uint8, rxBuffer: seq<uint8>, rxRssi: int, rxSnr: uint8, demodMargin: uint8, nbGateways: uint8)

  const NO_INFO := Info(OK, false, false, 0, 0, 0, [], 0, 0, 0, 0)

  /** The callbacks of mDotEvent. Silent stands for those that touch neither record nor call
      Notify: TxStart, RxDone, the beacon, pong and server time callbacks. */
  datatype MacEvent =
    | TxDone(dr: uint8)
    | TxTimeout
    | JoinAccept
    | JoinFailed
    | MissedAck(retries: uint8)
    | PacketRx(port: uint8, payload: seq<uint8>, rssi: int, snr: int, ack: bool, slot: uint8, retries: uint8, dupRx: bool)
    | NetworkLinkCheck(rssi: int, snr: int, margin: int, gateways: uint8)
    | RxTimeout(slot: uint8)
    | RxError(slot: uint8)
    | Silent

  datatype Radio = Radio(flags: Flags, info: Info, packetReceived: bool, ackReceived: bool, linkCheckAnswered: bool)

  const FRESH := Radio(NO_FLAGS, NO_INFO, false, false, false)

  predicate Notifies(e: MacEvent) {
    !e.MissedAck? && !e.Silent?
  }

  predicate Clears(e: MacEvent) {
    e.TxDone? || e.RxError?
  }

  function Step(s: Radio, e: MacEvent): Radio {
    match e
    case TxDone(dr) =>
      Radio(NO_FLAGS.(tx := true), NO_INFO.(txDatarate := dr), false, false, false)
    case TxTimeout =>
      s.(flags := s.flags.(tx := true), info := s.info.(status := TX_TIMEOUT))
    case JoinAccept =>
      s.(flags := s.flags.(tx := false, joinAccept := true), info := s.info.(status := OK))
    case JoinFailed =>
      s.(flags := s.flags.(tx := false, joinAccept := true), info := s.info.(status := JOIN_FAIL))
    case MissedAck(retries) =>
      s.(info := s.info.(txNbRetries := retries))
    case PacketRx(port, payload, rssi, snr, ack, slot, retries, dupRx) =>
      var acked := s.ackReceived || ack;
      s.(flags := s.flags.(tx := false, rx := true, rxData := |payload| > 0, rxSlot := slot % 4),
         info := s.info.(rxBuffer := payload, rxPort := port, rxRssi := rssi, rxSnr := snr % 0x100, txAckReceived := acked,
                         duplicateRx := dupRx, txNbRetries := retries, status := OK),
         packetReceived := true, ackReceived := acked)
    case NetworkLinkCheck(rssi, snr, margin, gateways) =>
      s.(flags := s.flags.(tx := false, linkCheck := true),
         info := s.info.(rxRssi := rssi, rxSnr := snr % 0x100, demodMargin := margin % 0x100, nbGateways := gateways, status := OK),
         linkCheckAnswered := true)
    case RxTimeout(slot) =>
      s.(flags := s.flags.(tx := false, rxSlot := slot % 4), info := s.info.(status := RX_TIMEOUT))
    case RxError(slot) =>
      s.(flags := NO_FLAGS.(rxSlot := slot % 4), info := NO_INFO.(status := RX_ERROR))
    case Silent => s
  }

  /** What the receive callback is called with during an event. */
  function Delivery(s: Radio, e: MacEvent): Option<seq<uint8>> {
    if Notifies(e) && |Step(s, e).info.rxBuffer| > 0 then Some(Step(s, e).info.rxBuffer) else None
  }

  function After(events: seq<MacEvent>): Radio {
    if events == [] then FRESH else Step(After(events[..|events| - 1]), events[|events| - 1])
  }

  function DeliveryAt(events: seq<MacEvent>, i: nat): Option<seq<uint8>>
    requires i < |events|
  {
    Delivery(After(events[..i]), events[i])
  }

  // ----- which packets are delivered

  /** Event j brought the packet that the record still holds before event n. */
  predicate HoldsPacketOf(events: seq<MacEvent>, n: nat, j: nat)
    requires n <= |events|
  {
    j < n && events[j].PacketRx? && forall k :: j < k < n ==> !events[k].PacketRx? && !Clears(events[k])
  }

  lemma {:induction false} PacketHeld(events: seq<MacEvent>, n: nat, j: nat)
    requires n <= |events| && HoldsPacketOf(events, n, j)
    ensures After(events[..n]).info.rxBuffer == events[j].payload
    decreases n
  {
    assert events[..n][..n - 1] == events[..n - 1];
    if j < n - 1 {
      PacketHeld(events, n - 1, j);
    }
  }

  lemma {:induction false} NothingHeld(events: seq<MacEvent>, n: nat)
    requires n <= |events| && forall j: nat :: !HoldsPacketOf(events, n, j)
    ensures After(events[..n]).info.rxBuffer == []
    decreases n
  {
    if n > 0 {
      var m, last := n - 1, events[n - 1];
      assert events[..n][..m] == events[..m];
      assert !HoldsPacketOf(events, n, m);
      if !Clears(last) {
        forall j: nat
          ensures !HoldsPacketOf(events, m, j)
        {
          assert !HoldsPacketOf(events, n, j);
        }
        NothingHeld(events, m);
      }
    }
  }

  /** A packet is delivered during an event if and only if the event notifies and the packet is
      the latest one received, non-empty, and not followed by TxDone or RxError. */
  lemma DeliveredExactly(events: seq<MacEvent>, i: nat, p: seq<uint8>)
    requires i < |events|
    ensures DeliveryAt(events, i) == Some(p) <==>
              && Notifies(events[i]) && p != []
              && exists j: nat :: HoldsPacketOf(events, i + 1, j) && events[j].payload == p
  {
    var n := i + 1;
    assert events[..n][..i] == events[..i];
    if j: nat :| HoldsPacketOf(events, n, j) {
      PacketHeld(events, n, j);
      forall k: nat | HoldsPacketOf(events, n, k)
        ensures events[k].payload == events[j].payload
      {
        PacketHeld(events, n, k);
      }
    } else {
      NothingHeld(events, n);
    }
  }

  // ----- repeated deliveries

  function Deliver<C>(f: (C, seq<uint8>) -> C, c: C, delivery: Option<seq<uint8>>): C {
    if delivery.Some? then f(c, delivery.value) else c
  }

  /** The configuration after every delivery of the run has been applied. */
  function AfterDeliveries<C>(f: (C, seq<uint8>) -> C, c: C, events: seq<MacEvent>): C {
    if events == [] then c
    else
      var n := |events| - 1;
      Deliver(f, AfterDeliveries(f, c, events[..n]), Delivery(After(events[..n]), events[n]))
  }

  /** The configuration after every non-empty packet has been applied once. */
  function AfterPackets<C>(f: (C, seq<uint8>) -> C, c: C, events: seq<MacEvent>): C {
    if events == [] then c
    else
      var n := |events| - 1;
      var before := AfterPackets(f, c, events[..n]);
      if events[n].PacketRx? && events[n].payload != [] then f(before, events[n].payload) else before
  }

  ghost predicate Idempotent<C(!new)>(f: (C, seq<uint8>) -> C) {
    forall c: C, p: seq<uint8> :: f(f(c, p), p) == f(c, p)
  }

  /** Applying the packet that the record holds changes nothing any more. */
  ghost predicate Settled<C(!new)>(f: (C, seq<uint8>) -> C, c: C, s: Radio) {
    s.info.rxBuffer != [] ==> f(c, s.info.rxBuffer) == c
  }

  lemma OneEvent<C(!new)>(f: (C, seq<uint8>) -> C, c: C, s: Radio, e: MacEvent)
    requires Idempotent(f) && Settled(f, c, s)
    ensures var d := Deliver(f, c, Delivery(s, e));
      && d == (if e.PacketRx? && e.payload != [] then f(c, e.payload) else c)
      && Settled(f, d, Step(s, e))
  {
  }

  /** Delivering stale packets again is harmless for every configuration whose commands are
      idempotent. */
  lemma {:induction false} RedeliveryHarmless<C(!new)>(f: (C, seq<uint8>) -> C, c: C, events: seq<MacEvent>)
    requires Idempotent(f)
    ensures AfterDeliveries(f, c, events) == AfterPackets(f, c, events)
    ensures Settled(f, AfterPackets(f, c, events), After(events))
    decreases |events|
  {
    if events != [] {
      var n := |events| - 1;
      RedeliveryHarmless(f, c, events[..n]);
      OneEvent(f, AfterPackets(f, c, events[..n]), After(events[..n]), events[n]);
    }
  }

  // ----- the code

  class EventSlot {
    var flags: Flags
    var info: Info
    var packetReceived: bool
    var ackReceived: bool
    var linkCheckAnswered: bool

    function Now(): Radio
      reads this
    {
      Radio(flags, info, packetReceived, ackReceived, linkCheckAnswered)
    }

    constructor ()
      ensures Now() == FRESH
    {
      flags, info := NO_FLAGS, NO_INFO;
      packetReceived, ackReceived, linkCheckAnswered := false, false, false;
    }

    /** Notify and EventSlot::MacEvent: the receive callback runs when the record holds bytes. */
    method Notify() returns (delivered: Option<seq<uint8>>)
      ensures delivered == if |info.rxBuffer| > 0 then Some(info.rxBuffer) else None
    {
      if |info.rxBuffer| > 0 {
        delivered := Some(info.rxBuffer);
      } else {
        delivered := None;
      }
    }

    method OnTxDone(dr: uint8) returns (delivered: Option<seq<uint8>>)
      modifies this
      ensures Now() == Step(old(Now()), TxDone(dr)) && delivered == None
    {
      linkCheckAnswered := false;
      packetReceived := false;
      ackReceived := false;
      flags := NO_FLAGS;
      info := NO_INFO;
      flags := flags.(tx := true);
      info := info.(txDatarate := dr);
      info := info.(status := OK);
      delivered := Notify();
    }

    method OnTxTimeout() returns (delivered: Option<seq<uint8>>)
      modifies this
      ensures Now() == Step(old(Now()), TxTimeout) && delivered == Delivery(old(Now()), TxTimeout)
    {
      flags := flags.(tx := true);
      info := info.(status := TX_TIMEOUT);
      delivered := Notify();
    }

    method OnJoinAccept() returns (delivered: Option<seq<uint8>>)
      modifies this
      ensures Now() == Step(old(Now()), JoinAccept) && delivered == Delivery(old(Now()), JoinAccept)
    {
      flags := flags.(tx := false);
      flags := flags.(joinAccept := true);
      info := info.(status := OK);
      delivered := Notify();
    }

    method OnJoinFailed() returns (delivered: Option<seq<uint8>>)
      modifies this
      ensures Now() == Step(old(Now()), JoinFailed) && delivered == Delivery(old(Now()), JoinFailed)
    {
      flags := flags.(tx := false);
      flags := flags.(joinAccept := true);
      info := info.(status := JOIN_FAIL);
      delivered := Notify();
    }

    method OnMissedAck(retries: uint8)
      modifies this
      ensures Now() == Step(old(Now()), MissedAck(retries))
    {
      info := info.(txNbRetries := retries);
    }

    method OnPacketRx(port: uint8, payload: seq<uint8>, rssi: int, snr: int, ack: bool, slot: uint8, retries: uint8, dupRx: bool)
      returns (delivered: Option<seq<uint8>>)
      requires |payload| <= 255
      modifies this
      ensures Now() == Step(old(Now()), PacketRx(port, payload, rssi, snr, ack, slot, retries, dupRx))
      ensures delivered == if payload == [] then None else Some(payload)
    {
      packetReceived := true;
      if ack {
        ackReceived := true;
      }
      flags := flags.(tx := false);
      flags := flags.(rx := true);
      flags := flags.(rxData := |payload| > 0);
      flags := flags.(rxSlot := slot % 4);
      info := info.(rxBuffer := payload);
      info := info.(rxPort := port);
      info := info.(rxRssi := rssi);
      info := info.(rxSnr := snr % 0x100);
      info := info.(txAckReceived := ackReceived);
      info := info.(duplicateRx := dupRx);
      info := info.(txNbRetries := retries);
      info := info.(status := OK);
      delivered := Notify();
    }

    method OnNetworkLinkCheck(rssi: int, snr: int, margin: int, gateways: uint8) returns (delivered: Option<seq<uint8>>)
      modifies this
      ensures Now() == Step(old(Now()), NetworkLinkCheck(rssi, snr, margin, gateways))
      ensures delivered == Delivery(old(Now()), NetworkLinkCheck(rssi, snr, margin, gateways))
    {
      linkCheckAnswered := true;
      flags := flags.(tx := false);
      flags := flags.(linkCheck := true);
      info := info.(rxRssi := rssi);
      info := info.(rxSnr := snr % 0x100);
      info := info.(demodMargin := margin % 0x100);
      info := info.(nbGateways := gateways);
      info := info.(status := OK);
      delivered := Notify();
    }

    method OnRxTimeout(slot: uint8) returns (delivered: Option<seq<uint8>>)
      modifies this
      ensures Now() == Step(old(Now()), RxTimeout(slot)) && delivered == Delivery(old(Now()), RxTimeout(slot))
    {
      flags := flags.(tx := false);
      flags := flags.(rxSlot := slot % 4);
      info := info.(status := RX_TIMEOUT);
      delivered := Notify();
    }

    method OnRxError(slot: uint8) returns (delivered: Option<seq<uint8>>)
      modifies this
      ensures Now() == Step(old(Now()), RxError(slot)) && delivered == None
    {
      flags := NO_FLAGS;
      info := NO_INFO;
      flags := flags.(rxSlot := slot % 4);
      info := info.(status := RX_ERROR);
      delivered := Notify();
    }
  }
}
