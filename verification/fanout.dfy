/**
 Outbound delivery. Each connection owns an unbounded FIFO channel; the model
 keeps its contents as a sequence under the connection's address. Sending is
 appending, and a send never fails or blocks.
 */
module Fanout {
  import opened Registry

  /** Lifecycle status carried by a handshake-status notice. */
  datatype Status = Connected | Close

  /** A WebSocket message read from a client; relayed without change. */
  datatype Frame =
    | Text(text: string)
    | Binary(data: seq<bv8>)
    | Ping(data: seq<bv8>)
    | Pong(data: seq<bv8>)
    | CloseFrame(data: seq<bv8>)

  /** What lands in an outbound queue. The JSON rendering and the timestamp of
      the synthesized notices are abstracted away. */
  datatype Msg =
    | HandshakeStatus(status: Status, message: string)
    | Count(count: nat)
    | Participants(names: seq<string>)
    | Relayed(frame: Frame)

  type Queues = map<Addr, seq<Msg>>

  /** The messages enqueued so far for one address; none if it never had a queue. */
  function Queue(q: Queues, a: Addr): seq<Msg> {
    if a in q then q[a] else []
  }

  /** The registry together with every connection's outbound queue. */
  datatype Server = Server(rooms: Rooms, queues: Queues)

  /** A new, empty channel for a connection; any earlier queue under the same
      address belonged to a connection that is gone. */
  function OpenChannel(q: Queues, a: Addr): (r: Queues)
    ensures Queue(r, a) == []
    ensures forall b :: b != a ==> Queue(r, b) == Queue(q, b)
  {
    q[a := []]
  }

  /** One unbounded send: the message goes to the end of one queue. */
  function Push(q: Queues, a: Addr, m: Msg): (r: Queues)
    ensures Queue(r, a) == Queue(q, a) + [m]
    ensures forall b :: b != a ==> Queue(r, b) == Queue(q, b)
  {
    q[a := Queue(q, a) + [m]]
  }

  /** Fan-out: exactly one copy of the message at the end of each target's
      queue, every other queue untouched. The order in which the targets are
      visited is irrelevant to the result (see Deliver). */
  function Broadcast(q: Queues, targets: set<Addr>, m: Msg): (r: Queues)
    ensures r.Keys == q.Keys + targets
    ensures forall a :: Queue(r, a) == if a in targets then Queue(q, a) + [m] else Queue(q, a)
  {
    map a | a in q.Keys + targets :: if a in targets then Queue(q, a) + [m] else q[a]
  }

  /** n copies of one message. */
  function Repeat(m: Msg, n: nat): seq<Msg> {
    if n == 0 then [] else Repeat(m, n - 1) + [m]
  }

  /** How many times x occurs in s. */
  function Occurrences<T(==)>(s: seq<T>, x: T): nat {
    if s == [] then 0
    else Occurrences(s[..|s| - 1], x) + (if s[|s| - 1] == x then 1 else 0)
  }

  /** In a duplicate-free sequence every element occurs once. */
  lemma {:induction false} DistinctOccursOnce<T>(s: seq<T>, x: T)
    requires Distinct(s)
    ensures Occurrences(s, x) == if x in s then 1 else 0
  {
    if s != [] {
      var n := |s| - 1;
      assert s == s[..n] + [s[n]];
      assert Distinct(s[..n]);
      assert s[n] !in s[..n];
      DistinctOccursOnce(s[..n], x);
    }
  }

  /** Queues that grew by the number of times each address occurs in a
      duplicate-free snapshot are the Broadcast to that snapshot. */
  lemma OncePerTargetIsBroadcast(q: Queues, r: Queues, senders: seq<Addr>, m: Msg)
    requires Distinct(senders)
    requires r.Keys == q.Keys + (set a | a in senders)
    requires forall a :: Queue(r, a) == Queue(q, a) + Repeat(m, Occurrences(senders, a))
    ensures r == Broadcast(q, (set a | a in senders), m)
  {
    var targets := set a | a in senders;
    var b := Broadcast(q, targets, m);
    assert r.Keys == b.Keys;
    forall a | a in r ensures r[a] == b[a] {
      DistinctOccursOnce(senders, a);
      var qa := Queue(q, a);
      if a in senders {
        assert Repeat(m, 1) == [m];
        assert Queue(r, a) == qa + [m];
        assert Queue(b, a) == qa + [m];
      } else {
        assert Queue(r, a) == qa + [];
        assert Queue(b, a) == qa;
      }
    }
  }

  /** One send extends the per-address copy count by one for that address. */
  lemma DeliverStep(q: Queues, r: Queues, sent: seq<Addr>, x: Addr, m: Msg)
    requires forall a :: Queue(r, a) == Queue(q, a) + Repeat(m, Occurrences(sent, a))
    ensures forall a :: Queue(Push(r, x, m), a) == Queue(q, a) + Repeat(m, Occurrences(sent + [x], a))
  {
  }

  /**
   The send loop over a snapshot of handles: each handle in turn receives the
   message. A handle listed k times receives k copies; with a duplicate-free
   snapshot, as every registry snapshot is, the loop is exactly Broadcast to
   the snapshot's addresses, whatever their order.
   */
  method Deliver(q: Queues, senders: seq<Addr>, m: Msg) returns (r: Queues)
    ensures r.Keys == q.Keys + (set a | a in senders)
    ensures forall a :: Queue(r, a) == Queue(q, a) + Repeat(m, Occurrences(senders, a))
    ensures Distinct(senders) ==> r == Broadcast(q, (set a | a in senders), m)
  {
    r := q;
    var i := 0;
    while i < |senders|
      invariant 0 <= i <= |senders|
      invariant forall a :: a in r <==> a in q || a in senders[..i]
      invariant forall a :: Queue(r, a) == Queue(q, a) + Repeat(m, Occurrences(senders[..i], a))
    {
      var x := senders[i];
      assert senders[..i + 1] == senders[..i] + [x];
      DeliverStep(q, r, senders[..i], x, m);
      r := Push(r, x, m);
      i := i + 1;
    }
    assert senders[..i] == senders;
    assert r.Keys == q.Keys + (set a | a in senders);
    if Distinct(senders) {
      OncePerTargetIsBroadcast(q, r, senders, m);
    }
  }
}
