/** Removal by packet identifier from a queue of outgoing messages, as both
    stores do it: the SQLite store's `DELETE ... WHERE PacketId = @id` and the
    in-memory store's `RemoveAll(m => m.PacketId == packetId)`. The queue is
    oldest first, and `key` reads a message's identifier. */
module MessageQueue {
  import opened Constants

  /** Every message with the identifier leaves the queue; the others stay. */
  function RemoveWithId<T>(ms: seq<T>, key: T -> PacketId, id: PacketId): (r: seq<T>)
    ensures forall j :: 0 <= j < |r| ==> key(r[j]) != id
    ensures |r| <= |ms|
    ensures (forall j :: 0 <= j < |ms| ==> key(ms[j]) != id) ==> r == ms
    decreases |ms|
  {
    if |ms| == 0 then []
    else
      var rest := RemoveWithId(ms[1..], key, id);
      assert ms == [ms[0]] + ms[1..];
      if key(ms[0]) == id then rest else [ms[0]] + rest
  }

  /** Removal works message by message: removing from two queues placed end
      to end is removing from each, in the same order, and a single message
      is dropped exactly when it has the identifier. So the messages kept
      stay in their original order. */
  lemma {:induction false} RemoveWithIdAppend<T>(a: seq<T>, b: seq<T>, key: T -> PacketId, id: PacketId)
    ensures RemoveWithId(a + b, key, id) == RemoveWithId(a, key, id) + RemoveWithId(b, key, id)
    ensures forall m :: RemoveWithId([m], key, id) == if key(m) == id then [] else [m]
    decreases |a|
  {
    forall m ensures RemoveWithId([m], key, id) == if key(m) == id then [] else [m] {
      assert [m][1..] == [];
    }
    if |a| == 0 {
      assert a + b == b;
    } else {
      assert (a + b)[0] == a[0] && (a + b)[1..] == a[1..] + b;
      RemoveWithIdAppend(a[1..], b, key, id);
    }
  }

  /** Every message with another identifier is kept, as many times as it
      occurred. */
  lemma {:induction false} RemoveWithIdKeepsOthers<T>(ms: seq<T>, key: T -> PacketId, id: PacketId, m: T)
    requires key(m) != id
    ensures multiset(RemoveWithId(ms, key, id))[m] == multiset(ms)[m]
    decreases |ms|
  {
    if |ms| > 0 {
      RemoveWithIdKeepsOthers(ms[1..], key, id, m);
      var rest := RemoveWithId(ms[1..], key, id);
      assert ms == [ms[0]] + ms[1..];
      assert multiset(ms) == multiset{ms[0]} + multiset(ms[1..]);
      if key(ms[0]) != id {
        assert RemoveWithId(ms, key, id) == [ms[0]] + rest;
        assert multiset([ms[0]] + rest) == multiset{ms[0]} + multiset(rest);
      }
    }
  }

  /** The oldest message left is the first message of the queue with another
      identifier, and none is left exactly when every message had the
      identifier. */
  lemma {:induction false} FirstKeptIsFirstOther<T>(ms: seq<T>, key: T -> PacketId, id: PacketId)
    ensures var r := RemoveWithId(ms, key, id);
      && (|r| == 0 <==> forall j :: 0 <= j < |ms| ==> key(ms[j]) == id)
      && (|r| > 0 ==> exists k :: 0 <= k < |ms| && r[0] == ms[k] && key(ms[k]) != id
                                  && forall j :: 0 <= j < k ==> key(ms[j]) == id)
    decreases |ms|
  {
    if |ms| > 0 && key(ms[0]) == id {
      FirstKeptIsFirstOther(ms[1..], key, id);
      var r := RemoveWithId(ms, key, id);
      assert forall j :: 1 <= j < |ms| ==> ms[j] == ms[1..][j - 1];
      if |r| > 0 {
        var k :| 0 <= k < |ms[1..]| && r[0] == ms[1..][k] && key(ms[1..][k]) != id
                 && forall j :: 0 <= j < k ==> key(ms[1..][j]) == id;
        assert forall j :: 0 <= j < k + 1 ==> key(ms[j]) == id by {
          assert forall j :: 1 <= j < k + 1 ==> ms[j] == ms[1..][j - 1];
        }
        assert r[0] == ms[k + 1];
      }
    } else if |ms| > 0 {
      assert RemoveWithId(ms, key, id)[0] == ms[0];
    }
  }
}
