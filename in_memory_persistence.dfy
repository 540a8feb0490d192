/** `InMemoryPersistence`: the in-memory store of the numbers test. It keeps
    the identifiers of QoS 2 messages received but not yet released, the
    numbers received per topic, the outgoing messages in flight, and the
    numbers already published. */
module InMemory {
  import opened Constants
  import opened Outcomes
  import opened MessageQueue

  /** An outgoing message of the numbers test: its identifier, the number it
      carries, and whether PUBREC has arrived for it. */
  datatype OutgoingMessage = OutgoingMessage(packetId: PacketId, number: int, received: bool)

  // ---------------------------------------------------------------------------
  // The list operations the store uses

  /** The position of the first occurrence of x. */
  function IndexOfFirst(xs: seq<PacketId>, x: PacketId): (i: nat)
    requires x in xs
    ensures i < |xs| && xs[i] == x && x !in xs[..i]
  {
    if xs[0] == x then 0
    else
      var j := IndexOfFirst(xs[1..], x);
      assert xs[..j + 1] == [xs[0]] + xs[1..][..j];
      j + 1
  }

  /** `List.Remove`: the first occurrence of x is removed, the rest kept in order. */
  function RemoveFirst(xs: seq<PacketId>, x: PacketId): (r: seq<PacketId>)
    ensures x !in xs ==> r == xs
    ensures x in xs ==> r == xs[..IndexOfFirst(xs, x)] + xs[IndexOfFirst(xs, x) + 1..]
  {
    if x in xs then xs[..IndexOfFirst(xs, x)] + xs[IndexOfFirst(xs, x) + 1..] else xs
  }

  /** Removing the first occurrence takes away one copy: an identifier
      stored twice is still present after one removal. */
  lemma RemoveFirstTakesOneCopy(xs: seq<PacketId>, x: PacketId)
    ensures multiset(RemoveFirst(xs, x)) == multiset(xs) - multiset{x}
    ensures x in RemoveFirst(xs, x) <==> multiset(xs)[x] >= 2
  {
    if x in xs {
      var i := IndexOfFirst(xs, x);
      assert xs == xs[..i] + [x] + xs[i + 1..];
      assert multiset(xs) == multiset(xs[..i]) + multiset{x} + multiset(xs[i + 1..]);
    }
    assert x in RemoveFirst(xs, x) <==> multiset(RemoveFirst(xs, x))[x] > 0;
  }

  /** `FirstOrDefault(m => m.PacketId == packetId)`, as a position. */
  function FirstWithId(ms: seq<OutgoingMessage>, id: PacketId): (r: Option<nat>)
    ensures r.None? <==> forall j :: 0 <= j < |ms| ==> ms[j].packetId != id
    ensures r.Some? ==> r.value < |ms| && ms[r.value].packetId == id
    ensures r.Some? ==> forall j :: 0 <= j < r.value ==> ms[j].packetId != id
  {
    if |ms| == 0 then None
    else if ms[0].packetId == id then Some(0)
    else
      match FirstWithId(ms[1..], id)
      case None => None
      case Some(j) => Some(j + 1)
  }

  /** The identifier `RemoveAll(m => m.PacketId == packetId)` compares. */
  function MessageId(m: OutgoingMessage): PacketId {
    m.packetId
  }

  /** A topic's list is done when it is non-empty and ends at or above max. */
  predicate DoneReceiving(numbers: seq<int>, maxNumber: int) {
    |numbers| > 0 && numbers[|numbers| - 1] >= maxNumber
  }

  function Max(xs: seq<int>): (m: int)
    requires |xs| > 0
    ensures m in xs && forall j :: 0 <= j < |xs| ==> xs[j] <= m
  {
    if |xs| == 1 then xs[0]
    else
      var rest := Max(xs[1..]);
      assert forall j :: 1 <= j < |xs| ==> xs[j] == xs[1..][j - 1];
      if xs[0] >= rest then xs[0] else rest
  }

  function Numbers(ms: seq<OutgoingMessage>): (ns: seq<int>)
    ensures |ns| == |ms| && forall j :: 0 <= j < |ms| ==> ns[j] == ms[j].number
  {
    if |ms| == 0 then [] else [ms[0].number] + Numbers(ms[1..])
  }

  // ---------------------------------------------------------------------------
  // The store

  class InMemoryPersistence {
    var incomingPacketIds: seq<PacketId>
    var receivedNumbers: map<string, seq<int>>
    var outgoingMessages: seq<OutgoingMessage>
    var lastNumberSent: int
    var publishedNumbers: seq<int>

    constructor ()
      ensures incomingPacketIds == [] && receivedNumbers == map[] && outgoingMessages == []
      ensures lastNumberSent == 0 && publishedNumbers == []
    {
      incomingPacketIds := [];
      receivedNumbers := map[];
      outgoingMessages := [];
      lastNumberSent := 0;
      publishedNumbers := [];
    }

    /** The list of numbers received on a topic; empty when none was. */
    function NumbersOf(topic: string): seq<int>
      reads this
    {
      if topic in receivedNumbers then receivedNumbers[topic] else []
    }

    /** Only a QoS 2 message registers its identifier; every message's number
      is appended to its topic's list. */
    method StoreIncomingMessage(packetId: PacketId, topic: string, qos: Qos, number: int)
      modifies this
      ensures incomingPacketIds == old(incomingPacketIds) + (if qos == ExactlyOnce then [packetId] else [])
      ensures receivedNumbers == old(receivedNumbers)[topic := old(NumbersOf(topic)) + [number]]
      ensures qos == ExactlyOnce ==> IsIncomingMessageRegistered(packetId)
      ensures outgoingMessages == old(outgoingMessages) && publishedNumbers == old(publishedNumbers)
      ensures lastNumberSent == old(lastNumberSent)
    {
      if qos == ExactlyOnce {
        incomingPacketIds := incomingPacketIds + [packetId];
      }
      RegisterReceivedNumber(topic, number);
    }

    method RegisterReceivedNumber(topic: string, number: int)
      modifies this
      ensures receivedNumbers == old(receivedNumbers)[topic := old(NumbersOf(topic)) + [number]]
      ensures incomingPacketIds == old(incomingPacketIds)
      ensures outgoingMessages == old(outgoingMessages) && publishedNumbers == old(publishedNumbers)
      ensures lastNumberSent == old(lastNumberSent)
    {
      if topic !in receivedNumbers {
        receivedNumbers := receivedNumbers[topic := []];
      }
      receivedNumbers := receivedNumbers[topic := receivedNumbers[topic] + [number]];
    }

    /** Removes one occurrence of the identifier, if there is one. */
    method ReleaseIncomingPacketId(packetId: PacketId)
      modifies this
      ensures incomingPacketIds == RemoveFirst(old(incomingPacketIds), packetId)
      ensures receivedNumbers == old(receivedNumbers)
      ensures outgoingMessages == old(outgoingMessages) && publishedNumbers == old(publishedNumbers)
      ensures lastNumberSent == old(lastNumberSent)
    {
      if packetId in incomingPacketIds {
        incomingPacketIds := RemoveFirst(incomingPacketIds, packetId);
      }
    }

    predicate IsIncomingMessageRegistered(packetId: PacketId)
      reads this
    {
      packetId in incomingPacketIds
    }

    /** The last number received on the topic, or 0 when there is none. */
    function GetLastReceived(topic: string): (r: int)
      reads this
      ensures |NumbersOf(topic)| == 0 ==> r == 0
      ensures |NumbersOf(topic)| > 0 ==> r == NumbersOf(topic)[|NumbersOf(topic)| - 1]
    {
      if topic in receivedNumbers then
        var items := receivedNumbers[topic];
        if |items| == 0 then 0 else items[|items| - 1]
      else 0
    }

    /** Walks the known topics and fails on the first whose list is empty or
      ends below maxNumber; with no topic known it holds. */
    method IsDoneReceiving(maxNumber: int) returns (r: bool)
      ensures r <==> forall topic :: topic in receivedNumbers ==> DoneReceiving(receivedNumbers[topic], maxNumber)
      ensures receivedNumbers == map[] ==> r
    {
      var remaining := receivedNumbers.Keys;
      while remaining != {}
        invariant remaining <= receivedNumbers.Keys
        invariant forall topic :: topic in receivedNumbers && topic !in remaining ==> DoneReceiving(receivedNumbers[topic], maxNumber)
        decreases |remaining|
      {
        var topic :| topic in remaining;
        if !DoneReceiving(receivedNumbers[topic], maxNumber) {
          return false;
        }
        remaining := remaining - {topic};
      }
      return true;
    }

    method RegisterOutgoingMessage(m: OutgoingMessage)
      modifies this
      ensures outgoingMessages == old(outgoingMessages) + [m]
      ensures incomingPacketIds == old(incomingPacketIds) && receivedNumbers == old(receivedNumbers)
      ensures publishedNumbers == old(publishedNumbers) && lastNumberSent == old(lastNumberSent)
    {
      outgoingMessages := outgoingMessages + [m];
    }

    /** `GetLastNumberSent` as written: the field, which only `Dispose`
      assigns. */
    function GetLastNumberSent(): (r: int)
      reads this
      ensures r == lastNumberSent
    {
      lastNumberSent
    }

    /** The last number sent as the SQLite store of the same interface
      computes it: the largest number in flight, else the largest number
      published, else 0. */
    function LastNumberSent(): (r: int)
      reads this
      ensures |outgoingMessages| > 0 ==>
        r in Numbers(outgoingMessages) && forall j :: 0 <= j < |outgoingMessages| ==> outgoingMessages[j].number <= r
      ensures |outgoingMessages| == 0 && |publishedNumbers| > 0 ==>
        r in publishedNumbers && forall j :: 0 <= j < |publishedNumbers| ==> publishedNumbers[j] <= r
      ensures |outgoingMessages| == 0 && |publishedNumbers| == 0 ==> r == 0
    {
      if |outgoingMessages| > 0 then Max(Numbers(outgoingMessages))
      else if |publishedNumbers| > 0 then Max(publishedNumbers)
      else 0
    }

    /** The oldest message in flight, or none. */
    function GetPendingOutgoingMessage(): (r: Option<OutgoingMessage>)
      reads this
      ensures r.None? <==> |outgoingMessages| == 0
      ensures r.Some? ==> r.value == outgoingMessages[0]
    {
      if |outgoingMessages| == 0 then None else Some(outgoingMessages[0])
    }

    /** Marks the first message with the identifier as received; unknown
      identifiers change nothing. */
    method SetOutgoingMessageReceived(packetId: PacketId)
      modifies this
      ensures var i := FirstWithId(old(outgoingMessages), packetId);
        outgoingMessages == if i.Some? then old(outgoingMessages)[i.value := old(outgoingMessages)[i.value].(received := true)]
                            else old(outgoingMessages)
      ensures incomingPacketIds == old(incomingPacketIds) && receivedNumbers == old(receivedNumbers)
      ensures publishedNumbers == old(publishedNumbers) && lastNumberSent == old(lastNumberSent)
    {
      var i := FirstWithId(outgoingMessages, packetId);
      if i.Some? {
        outgoingMessages := outgoingMessages[i.value := outgoingMessages[i.value].(received := true)];
      }
    }

    /** Records the first match's number as published and drops every
      message with the identifier. */
    method SetOutgoingMessageAcknowledged(packetId: PacketId)
      modifies this
      ensures var i := FirstWithId(old(outgoingMessages), packetId);
        publishedNumbers == old(publishedNumbers) + (if i.Some? then [old(outgoingMessages)[i.value].number] else [])
      ensures outgoingMessages == RemoveWithId(old(outgoingMessages), MessageId, packetId)
      ensures incomingPacketIds == old(incomingPacketIds) && receivedNumbers == old(receivedNumbers)
      ensures lastNumberSent == old(lastNumberSent)
    {
      var i := FirstWithId(outgoingMessages, packetId);
      if i.Some? {
        publishedNumbers := publishedNumbers + [outgoingMessages[i.value].number];
      }
      outgoingMessages := RemoveWithId(outgoingMessages, MessageId, packetId);
    }

    method RegisterPublishedNumber(n: int)
      modifies this
      ensures publishedNumbers == old(publishedNumbers) + [n]
      ensures incomingPacketIds == old(incomingPacketIds) && receivedNumbers == old(receivedNumbers)
      ensures outgoingMessages == old(outgoingMessages) && lastNumberSent == old(lastNumberSent)
    {
      publishedNumbers := publishedNumbers + [n];
    }

    method Dispose()
      modifies this
      ensures incomingPacketIds == [] && receivedNumbers == map[] && outgoingMessages == []
      ensures lastNumberSent == 0 && publishedNumbers == []
    {
      incomingPacketIds := [];
      receivedNumbers := map[];
      outgoingMessages := [];
      lastNumberSent := 0;
      publishedNumbers := [];
    }
  }

  /** No method but `Dispose` assigns `lastNumberSent`, and `Dispose` and the
      constructor set it to 0, so the field stays 0. A store that has
      published 5 and has nothing in flight still answers 0. */
  lemma LastNumberSentNeverUpdated(p: InMemoryPersistence)
    requires p.lastNumberSent == 0 && p.outgoingMessages == [] && p.publishedNumbers == [5]
    ensures p.GetLastNumberSent() == 0
    ensures p.LastNumberSent() == 5
  {
  }
}
