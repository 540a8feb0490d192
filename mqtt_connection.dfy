/** `MqttConnection`: one session with a broker. It allocates packet
    identifiers, keeps the connection alive with PINGREQ, answers the broker's
    PUBLISH / PUBREC / PUBREL with the acknowledgement the QoS flow calls for,
    and hands every packet to the application's handlers.

    The transport, the clock and the handlers are inputs: each pass of the
    receive loop sees one `Tick` saying what time it is, whether the
    transport is closed, whether a packet is ready, which packet the reader
    produced (or why it failed), and whether the handler returned or threw.
    Every packet written is appended to `sent`. */
module MqttConnection {
  import opened Constants
  import opened Outcomes
  import opened Packets

  // ---------------------------------------------------------------------------
  // Keepalive and packet identifiers

  /** 65535 seconds, the largest keepalive a CONNECT can carry, in milliseconds. */
  const MaxKeepaliveMillis := 65535000

  /** The constructor's keepalive check; the keepalive is kept in milliseconds. */
  function KeepaliveMillis(ms: int): (r: Result<nat>)
    ensures r.Ok? <==> 0 <= ms <= MaxKeepaliveMillis
    ensures r.Ok? ==> r.value == ms
    ensures r.Err? ==> r.error == ArgumentError
  {
    if ms < 0 || ms > MaxKeepaliveMillis then Err(ArgumentError) else Ok(ms)
  }

  /** `GetNextPacketId`: the identifier after `last`, wrapping from 65535 to 1. */
  function NextPacketId(last: PacketId): (r: PacketId)
    ensures 1 <= r <= MaxPacketId
    ensures r != last
  {
    var n := last + 1;
    if n > MaxPacketId then 1 else n
  }

  /** The identifier reached after k allocations starting from `last`. */
  function NextPacketIds(last: PacketId, k: nat): PacketId {
    if k == 0 then last else NextPacketId(NextPacketIds(last, k - 1))
  }

  /** Within one cycle, allocation counts up from `last` and wraps past
      65535 back to 1. */
  lemma {:induction false} NextPacketIdsWithinCycle(last: PacketId, k: nat)
    requires last >= 1 && k <= MaxPacketId
    ensures NextPacketIds(last, k) == if last + k <= MaxPacketId then last + k else last + k - MaxPacketId
  {
    if k > 0 {
      NextPacketIdsWithinCycle(last, k - 1);
    }
  }

  /** Identifiers never repeat within 65535 consecutive allocations, never
      take the value 0, and come back to the start after exactly 65535. A new
      connection starts from 0, so its first identifier is 1. */
  lemma PacketIdsDistinct(last: PacketId, i: nat, j: nat)
    requires last >= 1 && i < j < MaxPacketId
    ensures NextPacketIds(last, i) != NextPacketIds(last, j)
    ensures NextPacketIds(last, j) >= 1
    ensures NextPacketIds(last, MaxPacketId) == last
    ensures NextPacketId(0) == 1
  {
    NextPacketIdsWithinCycle(last, i);
    NextPacketIdsWithinCycle(last, j);
    NextPacketIdsWithinCycle(last, MaxPacketId);
  }

  /** `ReadWaitExpired`: nothing read for more than 1.5 keepalive periods,
      written in integers as 2 * elapsed > 3 * keepalive. */
  predicate ReadWaitExpired(keepalive: nat, lastRead: int, now: int) {
    keepalive > 0 && 2 * (now - lastRead) > 3 * keepalive
  }

  /** `WriteWaitExpired`: nothing written for more than one keepalive period. */
  predicate WriteWaitExpired(keepalive: nat, lastWrite: int, now: int) {
    keepalive > 0 && now - lastWrite > keepalive
  }

  /** Both checks are off when the keepalive is 0. When the last write is no
      later than the last read, the read wait cannot expire before the write
      wait, so the loop sends PINGREQ before it can time out. */
  lemma KeepaliveChecks(keepalive: nat, lastRead: int, lastWrite: int, now: int)
    ensures keepalive == 0 ==> !ReadWaitExpired(keepalive, lastRead, now) && !WriteWaitExpired(keepalive, lastWrite, now)
    ensures lastWrite <= lastRead && ReadWaitExpired(keepalive, lastRead, now) ==> WriteWaitExpired(keepalive, lastWrite, now)
  {
  }

  // ---------------------------------------------------------------------------
  // Replies to received packets

  /** `HandleReceivedPacket` and the `On...Received` methods: the packet the
      client answers with, if any. PUBLISH at QoS 1 and 2 is answered with
      PUBACK and PUBREC, PUBREC with PUBREL, PUBREL with PUBCOMP, always with
      the same identifier; a packet a client may not receive is a protocol
      error. */
  function Reply(p: Packet): (r: Result<Option<Packet>>)
    ensures r.Err? <==> !(p.Publish? || p.IsAck() || p.Suback? || p.Unsuback? || p.Pingresp?)
    ensures r.Err? ==> r.error == ProtocolError
    ensures r.Ok? && r.value.Some? <==> (p.Publish? && (p.qos == AtLeastOnce || p.qos == ExactlyOnce)) || p.Pubrec? || p.Pubrel?
    ensures r.Ok? && r.value.Some? ==> r.value.value.IsAck() && r.value.value.packetId == p.packetId
  {
    match p
    case Publish(_, qos, _, _, id, _) =>
      if qos == AtLeastOnce then Ok(Some(Puback(id)))
      else if qos == ExactlyOnce then Ok(Some(Pubrec(id)))
      else Ok(None)
    case Pubrec(id) => Ok(Some(Pubrel(id)))
    case Pubrel(id) => Ok(Some(Pubcomp(id)))
    case Puback(_) => Ok(None)
    case Pubcomp(_) => Ok(None)
    case Suback(_, _) => Ok(None)
    case Unsuback(_) => Ok(None)
    case Pingresp => Ok(None)
    case _ => Err(ProtocolError)
  }

  /** Each reply carries the next step of its QoS flow. */
  lemma ReplyFlows(id: PacketId, topic: Text, message: seq<Byte>, dup: bool, retain: bool)
    ensures Reply(Publish(dup, AtMostOnce, retain, topic, id, message)) == Ok(None)
    ensures Reply(Publish(dup, AtLeastOnce, retain, topic, id, message)) == Ok(Some(Puback(id)))
    ensures Reply(Publish(dup, ExactlyOnce, retain, topic, id, message)) == Ok(Some(Pubrec(id)))
    ensures Reply(Pubrec(id)) == Ok(Some(Pubrel(id)))
    ensures Reply(Pubrel(id)) == Ok(Some(Pubcomp(id)))
  {
  }

  // ---------------------------------------------------------------------------
  // CONNACK

  /** `ReceiveConnack` as written: the null test at line 161 is made on the
      received packet instead of on its CONNACK cast, so any other packet
      passes the test and fails on the cast's null reference. */
  function ConnackOutcomeAsWritten(p: Packet): (r: Result<bool>)
    ensures !p.Connack? ==> r == Err(NullReference)
  {
    if !p.Connack? then Err(NullReference)
    else if p.returnCode != Accepted then Err(ConnectError(p.returnCode))
    else Ok(p.sessionPresent)
  }

  /** `ReceiveConnack` as intended: only an accepted CONNACK opens the
      session, whose session-present flag is kept; a refused one carries its
      code; any other first packet is a protocol error. */
  function ConnackOutcome(p: Packet): (r: Result<bool>)
    ensures r.Ok? <==> p.Connack? && p.returnCode == Accepted
    ensures r.Ok? ==> r.value == p.sessionPresent
    ensures !p.Connack? ==> r == Err(ProtocolError)
    ensures p.Connack? && p.returnCode != Accepted ==> r == Err(ConnectError(p.returnCode))
  {
    if !p.Connack? then Err(ProtocolError)
    else if p.returnCode != Accepted then Err(ConnectError(p.returnCode))
    else Ok(p.sessionPresent)
  }

  /** The two differ exactly on a first packet that is not a CONNACK, such as
      a PINGRESP: a null reference instead of the protocol error. */
  lemma ConnackNullCheckOnWrongVariable(p: Packet)
    ensures ConnackOutcomeAsWritten(Pingresp) == Err(NullReference)
    ensures ConnackOutcome(Pingresp) == Err(ProtocolError)
    ensures ConnackOutcomeAsWritten(p) != ConnackOutcome(p) <==> !p.Connack?
  {
  }

  // ---------------------------------------------------------------------------
  // One pass of the receive loop, as a function of its inputs

  /** An application handler either returns, possibly setting `InterruptLoop`,
      or throws. */
  datatype HandlerOutcome = Returns(setsInterrupt: bool) | Throws

  /** What the transport's reader produces: a packet, or the reason it could
      not read one. The keepalive timeout is raised by the loop itself, never
      by the reader. */
  type ReadResult = r: Result<Packet> | r.Ok? || r.error != TimeoutError witness Ok(Pingresp)

  /** What one pass of the loop observes. */
  datatype Tick = Tick(now: int, closed: bool, dataReady: bool, incoming: ReadResult, handler: HandlerOutcome)

  /** The fields of a connection that the loop reads and writes. */
  datatype EngineState = EngineState(lastRead: int, lastWrite: int, interruptLoop: bool, sent: seq<Packet>)

  datatype LoopStep = Continue(state: EngineState) | Stop(outcome: Result<bool>, state: EngineState)

  datatype LoopEnd = LoopEnd(outcome: Result<bool>, state: EngineState)

  /** `after` is `before` followed by PINGREQs and acknowledgements only. */
  predicate OnlyPingsAndAcksAdded(before: seq<Packet>, after: seq<Packet>) {
    && before <= after
    && forall i :: |before| <= i < |after| ==> after[i].Pingreq? || after[i].IsAck()
  }

  lemma OnlyPingsAndAcksAddedTransitive(a: seq<Packet>, b: seq<Packet>, c: seq<Packet>)
    requires OnlyPingsAndAcksAdded(a, b) && OnlyPingsAndAcksAdded(b, c)
    ensures OnlyPingsAndAcksAdded(a, c)
  {
    forall i | |a| <= i < |c|
      ensures c[i].Pingreq? || c[i].IsAck()
    {
      if i < |b| {
        assert c[i] == b[i];
      }
    }
  }

  /** `ReceivePacket` after a successful poll: read, note the time, fire the
      handler, then send the reply. */
  function Receive(s: EngineState, t: Tick): (r: LoopStep)
    ensures r.Stop? ==> r.outcome.Err?
    ensures OnlyPingsAndAcksAdded(s.sent, r.state.sent) && !(Pingreq in r.state.sent[|s.sent|..])
    ensures r.state.lastRead == (if t.incoming.Ok? then t.now else s.lastRead)
    ensures t.incoming.Ok? && !t.incoming.value.Pingresp? && t.handler.Throws? ==> r.state.sent == s.sent
    ensures t.incoming.Ok? && r.Continue? && Reply(t.incoming.value).Ok? && Reply(t.incoming.value).value.Some? ==>
      r.state.sent == s.sent + [Reply(t.incoming.value).value.value] && r.state.lastWrite == t.now
    ensures t.incoming.Ok? && Reply(t.incoming.value) == Ok(None) && r.Continue? ==>
      r.state.sent == s.sent && r.state.lastWrite == s.lastWrite
    ensures r.Stop? <==> t.incoming.Err? || Reply(t.incoming.value).Err? || (!t.incoming.value.Pingresp? && t.handler.Throws?)
    ensures r.Stop? ==>
      r.outcome == Err(if t.incoming.Err? then t.incoming.error
                       else if Reply(t.incoming.value).Err? then ProtocolError
                       else HandlerError)
    ensures r.state.interruptLoop ==
      (s.interruptLoop || (t.incoming.Ok? && Reply(t.incoming.value).Ok? && !t.incoming.value.Pingresp? && t.handler == Returns(true)))
  {
    match t.incoming
    case Err(e) => Stop(Err(e), s)
    case Ok(p) =>
      var read := s.(lastRead := t.now);
      match Reply(p)
      case Err(e) => Stop(Err(e), read)
      case Ok(reply) =>
        if p.Pingresp? then Continue(read)
        else
          match t.handler
          case Throws => Stop(Err(HandlerError), read)
          case Returns(interrupt) =>
            var handled := read.(interruptLoop := read.interruptLoop || interrupt);
            if reply.Some? then Continue(handled.(sent := handled.sent + [reply.value], lastWrite := t.now))
            else Continue(handled)
  }

  /** The body of the `while` loop of `Loop`: closed, data ready, write wait
      expired, read wait expired, in that order. */
  function Step(keepalive: nat, s: EngineState, t: Tick): (r: LoopStep)
    ensures OnlyPingsAndAcksAdded(s.sent, r.state.sent)
    ensures keepalive == 0 ==> r != Stop(Err(TimeoutError), r.state) && !(Pingreq in r.state.sent[|s.sent|..])
    ensures r.Stop? && r.outcome == Ok(false) <==> t.closed
    ensures t.closed ==> r.state == s
    ensures Pingreq in r.state.sent[|s.sent|..] <==> !t.closed && !t.dataReady && WriteWaitExpired(keepalive, s.lastWrite, t.now)
    ensures r.Stop? && r.outcome == Err(TimeoutError) <==>
      !t.closed && !t.dataReady && !WriteWaitExpired(keepalive, s.lastWrite, t.now) && ReadWaitExpired(keepalive, s.lastRead, t.now)
  {
    if t.closed then Stop(Ok(false), s)
    else if t.dataReady then Receive(s, t)
    else if WriteWaitExpired(keepalive, s.lastWrite, t.now) then
      var pinged := s.(sent := s.sent + [Pingreq], lastWrite := t.now);
      assert pinged.sent[|s.sent|..] == [Pingreq];
      Continue(pinged)
    else if ReadWaitExpired(keepalive, s.lastRead, t.now) then Stop(Err(TimeoutError), s)
    else Continue(s)
  }

  /** The whole `while` loop: it runs while the read limit has not passed and
      no handler has set `InterruptLoop`, and then reports whether the
      transport is still open. The last tick is at or past the limit. */
  function Run(keepalive: nat, threshold: int, s: EngineState, ticks: seq<Tick>): LoopEnd
    requires |ticks| > 0 && ticks[|ticks| - 1].now >= threshold
    decreases |ticks|
  {
    var t := ticks[0];
    if threshold - t.now <= 0 || s.interruptLoop then LoopEnd(Ok(!t.closed), s)
    else
      match Step(keepalive, s, t)
      case Stop(outcome, after) => LoopEnd(outcome, after)
      case Continue(after) => Run(keepalive, threshold, after, ticks[1..])
  }

  /** The loop writes only PINGREQs and acknowledgements, after what was
      already written. */
  lemma {:induction false} RunSendsOnlyPingsAndAcks(keepalive: nat, threshold: int, s: EngineState, ticks: seq<Tick>)
    requires |ticks| > 0 && ticks[|ticks| - 1].now >= threshold
    ensures OnlyPingsAndAcksAdded(s.sent, Run(keepalive, threshold, s, ticks).state.sent)
    decreases |ticks|
  {
    var t := ticks[0];
    if threshold - t.now > 0 && !s.interruptLoop {
      var step := Step(keepalive, s, t);
      if step.Continue? {
        RunSendsOnlyPingsAndAcks(keepalive, threshold, step.state, ticks[1..]);
        OnlyPingsAndAcksAddedTransitive(s.sent, step.state.sent, Run(keepalive, threshold, step.state, ticks[1..]).state.sent);
      }
    }
  }

  /** With keepalive 0 the loop never sends PINGREQ and never times out. */
  lemma {:induction false} KeepaliveZeroNeverPingsNorTimesOut(threshold: int, s: EngineState, ticks: seq<Tick>)
    requires |ticks| > 0 && ticks[|ticks| - 1].now >= threshold
    ensures var e := Run(0, threshold, s, ticks);
      e.outcome != Err(TimeoutError) && s.sent <= e.state.sent && !(Pingreq in e.state.sent[|s.sent|..])
    decreases |ticks|
  {
    var t := ticks[0];
    if threshold - t.now > 0 && !s.interruptLoop {
      var step := Step(0, s, t);
      if step.Continue? {
        KeepaliveZeroNeverPingsNorTimesOut(threshold, step.state, ticks[1..]);
        var e := Run(0, threshold, step.state, ticks[1..]);
        assert e.state.sent[|s.sent|..] == step.state.sent[|s.sent|..] + e.state.sent[|step.state.sent|..];
      }
    }
  }

  /** A transport found closed ends the loop at once with `false`, before
      any read, PINGREQ or timeout; and the loop reports `false` only when
      some pass found the transport closed. */
  lemma {:induction false} ClosedEndsLoop(keepalive: nat, threshold: int, s: EngineState, ticks: seq<Tick>)
    requires |ticks| > 0 && ticks[|ticks| - 1].now >= threshold
    ensures threshold - ticks[0].now > 0 && !s.interruptLoop && ticks[0].closed ==>
      Run(keepalive, threshold, s, ticks) == LoopEnd(Ok(false), s)
    ensures Run(keepalive, threshold, s, ticks).outcome == Ok(false) ==> exists i :: 0 <= i < |ticks| && ticks[i].closed
    decreases |ticks|
  {
    var t := ticks[0];
    if threshold - t.now > 0 && !s.interruptLoop {
      var step := Step(keepalive, s, t);
      if step.Continue? {
        ClosedEndsLoop(keepalive, threshold, step.state, ticks[1..]);
        if Run(keepalive, threshold, s, ticks).outcome == Ok(false) {
          var i :| 0 <= i < |ticks[1..]| && ticks[1..][i].closed;
          assert ticks[i + 1].closed;
        }
      }
    }
  }

  /** When no packet is ready and the write wait has expired, the pass sends
      PINGREQ and the loop goes on, even if the read wait has expired too:
      the PINGREQ test comes before the timeout test. */
  lemma PingBeforeTimeout(keepalive: nat, threshold: int, s: EngineState, ticks: seq<Tick>)
    requires |ticks| > 1 && ticks[|ticks| - 1].now >= threshold
    requires threshold - ticks[0].now > 0 && !s.interruptLoop
    requires !ticks[0].closed && !ticks[0].dataReady && WriteWaitExpired(keepalive, s.lastWrite, ticks[0].now)
    ensures Run(keepalive, threshold, s, ticks)
         == Run(keepalive, threshold, s.(sent := s.sent + [Pingreq], lastWrite := ticks[0].now), ticks[1..])
  {
  }

  /** A handler that sets `InterruptLoop` ends the loop at the next check,
      which reports whether the transport is open. */
  lemma InterruptEndsLoop(keepalive: nat, threshold: int, s: EngineState, ticks: seq<Tick>)
    requires |ticks| > 1 && ticks[|ticks| - 1].now >= threshold
    requires threshold - ticks[0].now > 0 && !s.interruptLoop
    requires Step(keepalive, s, ticks[0]).Continue? && Step(keepalive, s, ticks[0]).state.interruptLoop
    ensures Run(keepalive, threshold, s, ticks) == LoopEnd(Ok(!ticks[1].closed), Step(keepalive, s, ticks[0]).state)
  {
    assert ticks[1..][0] == ticks[1];
  }

  // ---------------------------------------------------------------------------
  // The connection object

  class Connection {
    /** Milliseconds; 0 turns keepalive off. */
    const keepalive: nat
    var lastRead: int
    var lastWrite: int
    var lastPacketId: PacketId
    var isSessionPresent: bool
    var interruptLoop: bool
    /** Every packet written to the transport, oldest first. */
    var sent: seq<Packet>

    function State(): EngineState
      reads this
    {
      EngineState(lastRead, lastWrite, interruptLoop, sent)
    }

    constructor Init(keepalive: nat)
      ensures this.keepalive == keepalive && lastPacketId == 0 && sent == []
      ensures !isSessionPresent && !interruptLoop
    {
      this.keepalive := keepalive;
      lastRead, lastWrite := 0, 0;
      lastPacketId := 0;
      isSessionPresent, interruptLoop := false, false;
      sent := [];
    }

    /** The constructor: check the keepalive, send CONNECT, read CONNACK. */
    static method Open(keepaliveMs: int, closed: bool, now: int, incoming: Result<Packet>, readTime: int)
      returns (r: Result<Connection>)
      ensures KeepaliveMillis(keepaliveMs).Err? ==> r == Err(ArgumentError)
      ensures KeepaliveMillis(keepaliveMs).Ok? && closed ==> r == Err(ClientError)
      ensures KeepaliveMillis(keepaliveMs).Ok? && !closed ==>
        (r.Ok? <==> incoming.Ok? && ConnackOutcome(incoming.value).Ok?)
      ensures KeepaliveMillis(keepaliveMs).Ok? && !closed && r.Err? ==>
        r.error == (if incoming.Err? then incoming.error else ConnackOutcome(incoming.value).error)
      ensures r.Ok? ==> && fresh(r.value)
                        && r.value.keepalive == keepaliveMs
                        && r.value.sent == [Connect] && r.value.lastWrite == now && r.value.lastRead == readTime
                        && r.value.lastPacketId == 0 && !r.value.interruptLoop
                        && r.value.isSessionPresent == ConnackOutcome(incoming.value).value
    {
      var k := KeepaliveMillis(keepaliveMs);
      if k.Err? {
        return Err(ArgumentError);
      }
      var c := new Connection.Init(k.value);
      var written := c.Send(Connect, closed, now);
      if written.Err? {
        return Err(written.error);
      }
      var accepted := c.ReceiveConnack(incoming, readTime);
      if accepted.Err? {
        return Err(accepted.error);
      }
      return Ok(c);
    }

    /** `ReceiveConnack`, with the intended check on the first packet. */
    method ReceiveConnack(incoming: Result<Packet>, now: int) returns (r: Result<()>)
      modifies this
      ensures incoming.Err? ==> r == Err(incoming.error) && unchanged(this)
      ensures incoming.Ok? ==> lastRead == now
      ensures incoming.Ok? ==> (r.Ok? <==> ConnackOutcome(incoming.value).Ok?)
      ensures incoming.Ok? && r.Err? ==> r.error == ConnackOutcome(incoming.value).error
      ensures r.Ok? ==> isSessionPresent == ConnackOutcome(incoming.value).value
      ensures r.Err? ==> isSessionPresent == old(isSessionPresent)
      ensures lastWrite == old(lastWrite) && lastPacketId == old(lastPacketId)
      ensures interruptLoop == old(interruptLoop) && sent == old(sent)
    {
      if incoming.Err? {
        return Err(incoming.error);
      }
      lastRead := now;
      var outcome := ConnackOutcome(incoming.value);
      if outcome.Err? {
        return Err(outcome.error);
      }
      isSessionPresent := outcome.value;
      return Ok(());
    }

    /** `Send`: refused while the transport is closed; otherwise the packet is
      written and the write time noted. */
    method Send(p: Packet, closed: bool, now: int) returns (r: Result<()>)
      modifies this
      ensures closed ==> r == Err(ClientError) && unchanged(this)
      ensures !closed ==> r == Ok(()) && sent == old(sent) + [p] && lastWrite == now
      ensures lastRead == old(lastRead) && lastPacketId == old(lastPacketId)
      ensures isSessionPresent == old(isSessionPresent) && interruptLoop == old(interruptLoop)
    {
      if closed {
        return Err(ClientError);
      }
      sent := sent + [p];
      lastWrite := now;
      return Ok(());
    }

    function GetNextPacketId(): (r: PacketId)
      reads this
      ensures r == NextPacketId(lastPacketId)
    {
      NextPacketId(lastPacketId)
    }

    /** `Publish`: a QoS 1 or 2 packet's identifier becomes the last one
      allocated, even when the send then fails. */
    method Publish(p: Packet, closed: bool, now: int) returns (r: Result<()>)
      requires p.Publish?
      modifies this
      ensures lastPacketId == (if p.qos != AtMostOnce then p.packetId else old(lastPacketId))
      ensures closed ==> r == Err(ClientError) && sent == old(sent) && lastWrite == old(lastWrite)
      ensures !closed ==> r == Ok(()) && sent == old(sent) + [p] && lastWrite == now
      ensures lastRead == old(lastRead) && isSessionPresent == old(isSessionPresent) && interruptLoop == old(interruptLoop)
    {
      if p.qos != AtMostOnce {
        lastPacketId := p.packetId;
      }
      r := Send(p, closed, now);
    }

    /** `Pubrel`: resumes a QoS 2 flow whose PUBREC has already arrived. */
    method Pubrel(packetId: PacketId, closed: bool, now: int) returns (r: Result<()>)
      modifies this
      ensures closed ==> r == Err(ClientError) && unchanged(this)
      ensures !closed ==> r == Ok(()) && sent == old(sent) + [Packets.Pubrel(packetId)] && lastWrite == now
      ensures lastRead == old(lastRead) && lastPacketId == old(lastPacketId)
      ensures isSessionPresent == old(isSessionPresent) && interruptLoop == old(interruptLoop)
    {
      r := Send(Packets.Pubrel(packetId), closed, now);
    }

    /** `Subscribe` sends the packet and, unlike `Publish`, leaves the last
      identifier alone. */
    method Subscribe(p: Packet, closed: bool, now: int) returns (r: Result<()>)
      requires p.Subscribe?
      modifies this
      ensures closed ==> r == Err(ClientError) && unchanged(this)
      ensures !closed ==> r == Ok(()) && sent == old(sent) + [p] && lastWrite == now
      ensures lastRead == old(lastRead) && lastPacketId == old(lastPacketId)
      ensures isSessionPresent == old(isSessionPresent) && interruptLoop == old(interruptLoop)
    {
      r := Send(p, closed, now);
    }

    method Unsubscribe(p: Packet, closed: bool, now: int) returns (r: Result<()>)
      requires p.Unsubscribe?
      modifies this
      ensures closed ==> r == Err(ClientError) && unchanged(this)
      ensures !closed ==> r == Ok(()) && sent == old(sent) + [p] && lastWrite == now
      ensures lastRead == old(lastRead) && lastPacketId == old(lastPacketId)
      ensures isSessionPresent == old(isSessionPresent) && interruptLoop == old(interruptLoop)
    {
      r := Send(p, closed, now);
    }

    method Disconnect(closed: bool, now: int) returns (r: Result<()>)
      modifies this
      ensures closed ==> r == Err(ClientError) && unchanged(this)
      ensures !closed ==> r == Ok(()) && sent == old(sent) + [Packets.Disconnect] && lastWrite == now
      ensures lastRead == old(lastRead) && lastPacketId == old(lastPacketId)
      ensures isSessionPresent == old(isSessionPresent) && interruptLoop == old(interruptLoop)
    {
      r := Send(Packets.Disconnect, closed, now);
    }

    /** Raises an application event. */
    method FireHandler(h: HandlerOutcome) returns (r: Result<()>)
      modifies this
      ensures h.Throws? ==> r == Err(HandlerError) && unchanged(this)
      ensures h.Returns? ==> r == Ok(()) && State() == old(State()).(interruptLoop := old(interruptLoop) || h.setsInterrupt)
      ensures lastPacketId == old(lastPacketId) && isSessionPresent == old(isSessionPresent)
    {
      if h.Throws? {
        return Err(HandlerError);
      }
      if h.setsInterrupt {
        interruptLoop := true;
      }
      return Ok(());
    }

    /** `HandleReceivedPacket`: the handler first, then the reply. */
    method HandleReceivedPacket(p: Packet, t: Tick) returns (r: Result<()>)
      requires !t.closed && t.incoming == Ok(p) && lastRead == t.now
      modifies this
      ensures var step := Receive(old(State()), t);
        State() == step.state && (r.Ok? <==> step.Continue?) && (r.Err? ==> r.error == step.outcome.error)
      ensures lastRead == old(lastRead) && lastPacketId == old(lastPacketId) && isSessionPresent == old(isSessionPresent)
    {
      var reply := Reply(p);
      if reply.Err? {
        return Err(reply.error);
      }
      if p.Pingresp? {
        return Ok(());
      }
      r := FireHandler(t.handler);
      if r.Ok? && reply.value.Some? {
        r := Send(reply.value.value, t.closed, t.now);
      }
    }

    /** `ReceivePacket`: read one packet, note the time, handle it. */
    method ReceivePacket(t: Tick) returns (r: Result<()>)
      requires !t.closed
      modifies this
      ensures var step := Receive(old(State()), t);
        State() == step.state && (r.Ok? <==> step.Continue?) && (r.Err? ==> r.error == step.outcome.error)
      ensures lastPacketId == old(lastPacketId) && isSessionPresent == old(isSessionPresent)
    {
      if t.incoming.Err? {
        return Err(t.incoming.error);
      }
      lastRead := t.now;
      r := HandleReceivedPacket(t.incoming.value, t);
    }

    /** `Loop(readLimit)`, started at time `start`, over the passes `ticks`. */
    method Loop(readLimit: int, start: int, ticks: seq<Tick>) returns (r: Result<bool>)
      requires readLimit >= 0 ==> |ticks| > 0 && ticks[|ticks| - 1].now >= start + readLimit
      modifies this
      ensures readLimit < 0 ==> r == Err(ArgumentError) && unchanged(this)
      ensures readLimit >= 0 ==>
        var e := Run(keepalive, start + readLimit, old(State()).(interruptLoop := false), ticks);
        r == e.outcome && State() == e.state
      ensures lastPacketId == old(lastPacketId) && isSessionPresent == old(isSessionPresent)
    {
      if readLimit < 0 {
        return Err(ArgumentError);
      }
      var threshold := start + readLimit;
      interruptLoop := false;
      ghost var goal := Run(keepalive, threshold, State(), ticks);
      var i := 0;
      while threshold - ticks[i].now > 0 && !interruptLoop
        invariant 0 <= i < |ticks|
        invariant Run(keepalive, threshold, State(), ticks[i..]) == goal
        invariant lastPacketId == old(lastPacketId) && isSessionPresent == old(isSessionPresent)
        decreases |ticks| - i
      {
        var t := ticks[i];
        assert ticks[i..][0] == t && ticks[i..][1..] == ticks[i + 1..];
        ghost var before := State();
        if t.closed {
          return Ok(false);
        } else if t.dataReady {
          var received := ReceivePacket(t);
          if received.Err? {
            return Err(received.error);
          }
        } else if WriteWaitExpired(keepalive, lastWrite, t.now) {
          var _ := Send(Pingreq, t.closed, t.now);
        } else if ReadWaitExpired(keepalive, lastRead, t.now) {
          return Err(TimeoutError);
        }
        assert Step(keepalive, before, t) == Continue(State());
        i := i + 1;
      }
      return Ok(!ticks[i].closed);
    }
  }
}
