/** The sample client's QoS bookkeeping: what it persists when it publishes,
    what it resends after a reconnection, and how it filters duplicate
    QoS 2 messages, over an abstract persistence state and a `Connection`. */
module SampleClient {
  import opened Constants
  import opened Outcomes
  import opened Packets
  import opened MqttConnection
  import opened MessageQueue

  /** An outgoing message of the sample client. `received` records that
      PUBREC arrived for it (QoS 2 only). */
  datatype OutgoingMessage = OutgoingMessage(packetId: PacketId, topic: Text, qos: Qos, payload: seq<Byte>, received: bool)

  /** The persistence the client works against: the set of incoming QoS 2
      identifiers not yet released, and the queue of outgoing messages in
      flight, oldest first. */
  datatype ClientStore = ClientStore(incoming: set<PacketId>, outgoing: seq<OutgoingMessage>)

  /** `SetOutgoingMessageReceived`: every message with the identifier is
      marked received; the others are untouched. */
  function MarkReceived(ms: seq<OutgoingMessage>, id: PacketId): (r: seq<OutgoingMessage>)
    ensures |r| == |ms|
    ensures forall j :: 0 <= j < |ms| ==>
      r[j].packetId == ms[j].packetId && r[j].topic == ms[j].topic && r[j].qos == ms[j].qos
      && r[j].payload == ms[j].payload && r[j].received == (ms[j].received || ms[j].packetId == id)
  {
    if |ms| == 0 then []
    else
      var m := ms[0];
      [OutgoingMessage(m.packetId, m.topic, m.qos, m.payload, m.received || m.packetId == id)] + MarkReceived(ms[1..], id)
  }

  /** The identifier `SetOutgoingMessageAcknowledged` deletes by. */
  function MessageId(m: OutgoingMessage): PacketId {
    m.packetId
  }

  /** `GetPendingOutgoingMessage`: the oldest message in flight. */
  function PendingOutgoing(s: ClientStore): Option<OutgoingMessage> {
    if |s.outgoing| == 0 then None else Some(s.outgoing[0])
  }

  /** The PUBLISH that first sends a message. */
  function FirstDelivery(m: OutgoingMessage): Packet {
    Packets.Publish(false, m.qos, false, m.topic, m.packetId, m.payload)
  }

  /** What `Redeliver` sends for a message: the PUBLISH again with DUP set
      while the broker has not confirmed it, PUBREL once a QoS 2 message is
      known received, and nothing for QoS 0. */
  function Redelivery(m: OutgoingMessage): (r: Option<Packet>)
    ensures r.None? <==> m.qos != AtLeastOnce && m.qos != ExactlyOnce
    ensures r.Some? && r.value.Publish? ==> r.value.dup && !r.value.retain
  {
    if m.qos == AtLeastOnce || (m.qos == ExactlyOnce && !m.received) then
      Some(Packets.Publish(true, m.qos, false, m.topic, m.packetId, m.payload))
    else if m.qos == ExactlyOnce && m.received then
      Some(Packets.Pubrel(m.packetId))
    else
      None
  }

  /** What a reconnection resends: with a session present, the redelivery
      of the oldest message in flight; without one, nothing. */
  function ResendOnConnect(s: ClientStore, sessionPresent: bool): (r: Option<Packet>)
    ensures r.Some? <==> sessionPresent && |s.outgoing| > 0
                         && (s.outgoing[0].qos == AtLeastOnce || s.outgoing[0].qos == ExactlyOnce)
    ensures r.Some? ==> (r.value.Publish? || r.value.Pubrel?) && r.value.packetId == s.outgoing[0].packetId
  {
    if sessionPresent && PendingOutgoing(s).Some? then Redelivery(PendingOutgoing(s).value) else None
  }

  /** A redelivered PUBLISH carries the first delivery's identifier, topic,
      QoS and payload, so the receiver acknowledges it exactly as it would
      the original; a QoS 2 message already received resumes with the PUBREL
      a PUBREC calls for. */
  lemma RedeliveryResumesFlow(m: OutgoingMessage)
    requires m.qos == AtLeastOnce || m.qos == ExactlyOnce
    ensures Redelivery(m).Some?
    ensures !(m.qos == ExactlyOnce && m.received) ==>
      var p := Redelivery(m).value;
      p.Publish? && p.dup && p.packetId == m.packetId && p.topic == m.topic && p.qos == m.qos && p.message == m.payload
      && Reply(p) == Reply(FirstDelivery(m))
    ensures m.qos == ExactlyOnce && m.received ==> Redelivery(m) == Reply(Pubrec(m.packetId)).value
  {
  }

  /** After PUBREC marks a pending QoS 2 message received, its redelivery is
      PUBREL rather than a second PUBLISH. */
  lemma PubrecSwitchesRedeliveryToPubrel(ms: seq<OutgoingMessage>, id: PacketId, j: int)
    requires 0 <= j < |ms| && ms[j].packetId == id && ms[j].qos == ExactlyOnce
    ensures Redelivery(MarkReceived(ms, id)[j]) == Some(Pubrel(id))
  {
  }

  /** Once PUBACK or PUBCOMP has been handled for an identifier, the message
      redelivered next is the oldest one in flight under another identifier,
      and nothing is pending exactly when every message had that identifier. */
  lemma AcknowledgedIsNotRedelivered(s: ClientStore, id: PacketId)
    ensures var next := PendingOutgoing(ClientStore(s.incoming, RemoveWithId(s.outgoing, MessageId, id)));
      && (next.None? <==> forall j :: 0 <= j < |s.outgoing| ==> s.outgoing[j].packetId == id)
      && (next.Some? ==> exists k :: 0 <= k < |s.outgoing| && next.value == s.outgoing[k] && s.outgoing[k].packetId != id
                                     && forall j :: 0 <= j < k ==> s.outgoing[j].packetId == id)
  {
    FirstKeptIsFirstOther(s.outgoing, MessageId, id);
  }

  /** The outcome of `HandlePublishReceived`: whether the message was
      processed, the incoming set afterwards, and whether the handler threw. */
  datatype IncomingOutcome = IncomingOutcome(processed: bool, incoming: set<PacketId>, result: Result<()>)

  /** A QoS 2 PUBLISH whose identifier is registered is a duplicate and is
      skipped. Any other PUBLISH is processed first; only when processing
      returns is a QoS 2 identifier registered. */
  function OnIncomingPublish(incoming: set<PacketId>, p: Packet, processorThrows: bool): (o: IncomingOutcome)
    requires p.Publish?
    ensures !o.processed <==> p.qos == ExactlyOnce && p.packetId in incoming
    ensures o.result.Err? <==> o.processed && processorThrows
    ensures o.result.Err? ==> o.result.error == HandlerError
    ensures o.incoming == incoming || (o.incoming == incoming + {p.packetId} && p.qos == ExactlyOnce && o.result.Ok?)
  {
    if p.qos == ExactlyOnce && p.packetId in incoming then IncomingOutcome(false, incoming, Ok(()))
    else if processorThrows then IncomingOutcome(true, incoming, Err(HandlerError))
    else IncomingOutcome(true, if p.qos == ExactlyOnce then incoming + {p.packetId} else incoming, Ok(()))
  }

  /** Exactly once: after a QoS 2 message is processed, every copy with the
      same identifier is skipped until PUBREL releases it, and after the
      release the identifier is free again. */
  lemma ExactlyOnceSuppressesDuplicates(incoming: set<PacketId>, p: Packet, copy: Packet, throws: bool)
    requires p.Publish? && p.qos == ExactlyOnce
    requires copy.Publish? && copy.qos == ExactlyOnce && copy.packetId == p.packetId
    requires OnIncomingPublish(incoming, p, false).processed
    ensures !OnIncomingPublish(OnIncomingPublish(incoming, p, false).incoming, copy, throws).processed
    ensures OnIncomingPublish(OnIncomingPublish(incoming, p, false).incoming - {p.packetId}, copy, throws).processed
  {
  }

  /** Nothing is lost: when processing throws, the identifier stays free, so
      the broker's resend is processed again. */
  lemma FailedProcessingIsRetried(incoming: set<PacketId>, p: Packet, resend: Packet, throws: bool)
    requires p.Publish? && resend.Publish? && resend.qos == p.qos && resend.packetId == p.packetId
    requires OnIncomingPublish(incoming, p, true).processed
    ensures OnIncomingPublish(incoming, p, true).incoming == incoming
    ensures OnIncomingPublish(OnIncomingPublish(incoming, p, true).incoming, resend, throws).processed
  {
  }

  /** At least once: QoS 0 and QoS 1 messages are always processed, so a
      duplicate QoS 1 message is processed twice. */
  lemma LowerQosAlwaysProcessed(incoming: set<PacketId>, p: Packet, throws: bool)
    requires p.Publish? && (p.qos == AtMostOnce || p.qos == AtLeastOnce)
    ensures OnIncomingPublish(incoming, p, throws).processed
    ensures OnIncomingPublish(incoming, p, throws).incoming == incoming
  {
  }

  class MqttClient {
    /** Whether a message is being published; the client keeps one in flight. */
    var isPublishing: bool
    var store: ClientStore
    const conn: Connection

    constructor (store: ClientStore, conn: Connection)
      ensures this.store == store && this.conn == conn && !isPublishing
    {
      this.store := store;
      this.conn := conn;
      isPublishing := false;
    }

    /** QoS 0 takes no identifier and is not stored; otherwise the next
      identifier is taken and the message stored before it is sent. */
    method Publish(topic: Text, qos: Qos, payload: seq<Byte>, closed: bool, now: int) returns (r: Result<()>)
      modifies this, conn
      ensures var id := if qos != AtMostOnce then NextPacketId(old(conn.lastPacketId)) else 0;
        && store.incoming == old(store.incoming)
        && store.outgoing == old(store.outgoing) + (if qos != AtMostOnce then [OutgoingMessage(id, topic, qos, payload, false)] else [])
        && conn.lastPacketId == (if qos != AtMostOnce then id else old(conn.lastPacketId))
        && (closed ==> r == Err(ClientError) && conn.sent == old(conn.sent) && conn.lastWrite == old(conn.lastWrite))
        && (!closed ==> r == Ok(()) && conn.sent == old(conn.sent) + [Packets.Publish(false, qos, false, topic, id, payload)]
                        && conn.lastWrite == now)
      ensures isPublishing
      ensures conn.lastRead == old(conn.lastRead) && conn.interruptLoop == old(conn.interruptLoop)
      ensures conn.isSessionPresent == old(conn.isSessionPresent)
    {
      var id := 0;
      if qos != AtMostOnce {
        id := conn.GetNextPacketId();
        store := ClientStore(store.incoming, store.outgoing + [OutgoingMessage(id, topic, qos, payload, false)]);
      }
      isPublishing := true;
      r := conn.Publish(Packets.Publish(false, qos, false, topic, id, payload), closed, now);
    }

    /** Sends what `Redelivery` says; `isPublishing` is set only once the
      send has gone through. */
    method Redeliver(m: OutgoingMessage, closed: bool, now: int) returns (r: Result<()>)
      modifies this, conn
      ensures Redelivery(m).None? ==> r == Ok(()) && conn.sent == old(conn.sent) && isPublishing == old(isPublishing)
      ensures Redelivery(m).Some? && closed ==>
        r == Err(ClientError) && conn.sent == old(conn.sent) && isPublishing == old(isPublishing)
      ensures Redelivery(m).Some? && !closed ==>
        r == Ok(()) && conn.sent == old(conn.sent) + [Redelivery(m).value] && isPublishing && conn.lastWrite == now
      ensures closed || Redelivery(m).None? ==> conn.lastWrite == old(conn.lastWrite)
      ensures conn.lastPacketId == (if Redelivery(m).Some? && Redelivery(m).value.Publish? then m.packetId else old(conn.lastPacketId))
      ensures store == old(store)
      ensures conn.lastRead == old(conn.lastRead) && conn.interruptLoop == old(conn.interruptLoop)
      ensures conn.isSessionPresent == old(conn.isSessionPresent)
    {
      var packet := Redelivery(m);
      r := Ok(());
      if packet.Some? {
        if packet.value.Publish? {
          r := conn.Publish(packet.value, closed, now);
        } else {
          r := conn.Pubrel(m.packetId, closed, now);
        }
        if r.Ok? {
          isPublishing := true;
        }
      }
    }

    /** SUBSCRIBE takes the next identifier but does not record it as the
      last one used, so the following `Publish` takes the same identifier. */
    method Subscribe(topics: seq<Text>, qosLevels: seq<Qos>, closed: bool, now: int) returns (r: Result<()>)
      modifies conn
      ensures closed ==> r == Err(ClientError) && conn.sent == old(conn.sent)
      ensures !closed ==>
        r == Ok(()) && conn.lastWrite == now
        && conn.sent == old(conn.sent) + [Packets.Subscribe(NextPacketId(old(conn.lastPacketId)), topics, qosLevels)]
      ensures closed ==> conn.lastWrite == old(conn.lastWrite)
      ensures conn.GetNextPacketId() == NextPacketId(old(conn.lastPacketId))
      ensures conn.lastPacketId == old(conn.lastPacketId) && conn.isSessionPresent == old(conn.isSessionPresent)
      ensures conn.lastRead == old(conn.lastRead) && conn.interruptLoop == old(conn.interruptLoop)
    {
      r := conn.Subscribe(Packets.Subscribe(conn.GetNextPacketId(), topics, qosLevels), closed, now);
    }

    /** Without a session nothing is resent; with one, the oldest message
      in flight is redelivered, as `Redeliver` does. */
    method OnConnect(closed: bool, now: int) returns (r: Result<()>)
      modifies this, conn
      ensures var p := ResendOnConnect(old(store), old(conn.isSessionPresent));
        && (p.None? ==>
              r == Ok(()) && conn.sent == old(conn.sent) && conn.lastWrite == old(conn.lastWrite) && isPublishing == old(isPublishing))
        && (p.Some? && closed ==>
              r == Err(ClientError) && conn.sent == old(conn.sent) && conn.lastWrite == old(conn.lastWrite)
              && isPublishing == old(isPublishing))
        && (p.Some? && !closed ==>
              r == Ok(()) && conn.sent == old(conn.sent) + [p.value] && conn.lastWrite == now && isPublishing)
        && conn.lastPacketId == (if p.Some? && p.value.Publish? then p.value.packetId else old(conn.lastPacketId))
      ensures store == old(store)
      ensures conn.lastRead == old(conn.lastRead) && conn.interruptLoop == old(conn.interruptLoop)
      ensures conn.isSessionPresent == old(conn.isSessionPresent)
    {
      r := Ok(());
      if conn.isSessionPresent {
        var message := PendingOutgoing(store);
        if message.Some? {
          r := Redeliver(message.value, closed, now);
        }
      }
    }

    /** Skips a registered QoS 2 duplicate; otherwise runs the processor
      (which may throw) and then registers a QoS 2 identifier. */
    method HandlePublishReceived(p: Packet, processorThrows: bool) returns (r: Result<()>, processed: bool)
      requires p.Publish?
      modifies this
      ensures var o := OnIncomingPublish(old(store.incoming), p, processorThrows);
        r == o.result && processed == o.processed && store.incoming == o.incoming
      ensures store.outgoing == old(store.outgoing) && isPublishing == old(isPublishing)
    {
      processed := false;
      r := Ok(());
      if p.qos == ExactlyOnce && p.packetId in store.incoming {
        return;
      }
      processed := true;
      if processorThrows {
        r := Err(HandlerError);
        return;
      }
      if p.qos == ExactlyOnce {
        store := ClientStore(store.incoming + {p.packetId}, store.outgoing);
      }
    }

    method HandlePubrelReceived(packetId: PacketId)
      modifies this
      ensures store.incoming == old(store.incoming) - {packetId} && store.outgoing == old(store.outgoing)
      ensures isPublishing == old(isPublishing)
    {
      store := ClientStore(store.incoming - {packetId}, store.outgoing);
    }

    method HandlePubrecReceived(packetId: PacketId)
      modifies this
      ensures store.outgoing == MarkReceived(old(store.outgoing), packetId) && store.incoming == old(store.incoming)
      ensures isPublishing == old(isPublishing)
    {
      store := ClientStore(store.incoming, MarkReceived(store.outgoing, packetId));
    }

    method HandlePubackReceived(packetId: PacketId)
      modifies this, conn
      ensures store.outgoing == RemoveWithId(old(store.outgoing), MessageId, packetId) && store.incoming == old(store.incoming)
      ensures !isPublishing && conn.interruptLoop
      ensures conn.sent == old(conn.sent) && conn.lastPacketId == old(conn.lastPacketId)
      ensures conn.lastRead == old(conn.lastRead) && conn.lastWrite == old(conn.lastWrite)
      ensures conn.isSessionPresent == old(conn.isSessionPresent)
    {
      FinishOutgoingFlow(packetId);
    }

    method HandlePubcompReceived(packetId: PacketId)
      modifies this, conn
      ensures store.outgoing == RemoveWithId(old(store.outgoing), MessageId, packetId) && store.incoming == old(store.incoming)
      ensures !isPublishing && conn.interruptLoop
      ensures conn.sent == old(conn.sent) && conn.lastPacketId == old(conn.lastPacketId)
      ensures conn.lastRead == old(conn.lastRead) && conn.lastWrite == old(conn.lastWrite)
      ensures conn.isSessionPresent == old(conn.isSessionPresent)
    {
      FinishOutgoingFlow(packetId);
    }

    /** The common end of the QoS 1 and QoS 2 outgoing flows. */
    method FinishOutgoingFlow(packetId: PacketId)
      modifies this, conn
      ensures store.outgoing == RemoveWithId(old(store.outgoing), MessageId, packetId) && store.incoming == old(store.incoming)
      ensures !isPublishing && conn.interruptLoop
      ensures conn.sent == old(conn.sent) && conn.lastPacketId == old(conn.lastPacketId)
      ensures conn.lastRead == old(conn.lastRead) && conn.lastWrite == old(conn.lastWrite)
      ensures conn.isSessionPresent == old(conn.isSessionPresent)
    {
      store := ClientStore(store.incoming, RemoveWithId(store.outgoing, MessageId, packetId));
      isPublishing := false;
      conn.interruptLoop := true;
    }
  }
}
