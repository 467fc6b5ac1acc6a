/**
 The event loop's operations, as their contracts state them, are single steps of the QoS 1 protocol (`Session`); whole
 runs over byte links are the subject of `ByteSession`.
 */
module Refinement {
  import opened Wrappers
  import opened Bytes
  import opened Packets
  import opened Framing
  import opened PacketIds
  import opened Publishing
  import opened Receiving
  import opened Bursts
  import D = Decoder
  import E = EventLoop
  import R = RoundTrip
  import S = Session

  /** The event loop's books are the protocol's. */
  ghost predicate Represents(book: S.Client<Pending>, c: S.Client<S.Msg>) {
    && book.nextId == c.nextId
    && book.inflight.Keys == c.inflight.Keys
    && forall id :: id in book.inflight ==> book.inflight[id].0 == c.inflight[id].content.(packetId := Some(id))
  }

  function PacketFor(p: S.Sent): Packet {
    PacketOf(p.msg.content.(dup := p.msg.content.dup || p.dup), Some(p.id))
  }

  /** The packets a queue of the protocol stands for. */
  function OnWire(q: seq<S.Sent>): (ps: seq<Packet>)
    ensures |ps| == |q|
  {
    if q == [] then [] else [PacketFor(q[0])] + OnWire(q[1..])
  }

  lemma {:induction false} OnWireAppend(a: seq<S.Sent>, b: seq<S.Sent>)
    ensures OnWire(a + b) == OnWire(a) + OnWire(b)
  {
    hide PacketFor;
    if a == [] {
      assert a + b == b;
    } else {
      assert (a + b)[0] == a[0] && (a + b)[1..] == a[1..] + b;
      OnWireAppend(a[1..], b);
    }
  }

  /** Sending a QoS 1 message is the protocol's publish, and its packet is what goes on the wire. */
  lemma SendIsPublish(book: S.Client<Pending>, s: S.System, m: PublishMessage, ack: Option<Reply>)
    requires Represents(book, s.client) && s.connected && m.qos == AtLeastOnce
    ensures var t := S.Next(s, S.Publish(m));
            && Represents(Booked(book, m, ack), t.client)
            && OnWire(t.toBroker) == OnWire(s.toBroker) + [PacketOf(m, TakenId(m, book.nextId))]
  {
    var p := S.Sent(s.client.nextId, S.Msg(s.allocations, m), false);
    OnWireAppend(s.toBroker, [p]);
    assert m.(dup := m.dup || false) == m;
    assert OnWire([p]) == [PacketOf(m, TakenId(m, book.nextId))];
  }

  /** Subscribing takes an identifier and nothing else. */
  lemma SubscribeIsAllocate(book: S.Client<Pending>, s: S.System)
    requires Represents(book, s.client) && s.connected
    ensures Represents(S.Client(NextId(book.nextId), book.inflight), S.Next(s, S.Allocate).client)
  {
  }

  /** A PUBACK action is the protocol's receipt; whoever is told has a message the protocol counts as acknowledged. */
  lemma PubAckIsReceipt(e: Effects, s: S.System, l: Link)
    requires Represents(e.book, s.client) && s.connected && s.toClient != []
    ensures var t, after := S.Next(s, S.ClientReceives), Performed(e, OnPubAck(s.toClient[0]), l);
            && Represents(after.book, t.client)
            && (after.told != e.told ==>
                  s.toClient[0] in s.client.inflight && s.client.inflight[s.toClient[0]] in t.notified)
  {
    assert e.told + [] == e.told;
  }

  /** Every other received packet leaves the books alone. */
  lemma OthersKeepTheBooks(e: Effects, a: Action, l: Link)
    requires !a.OnPubAck?
    ensures Performed(e, a, l).book == e.book
  {
    hide Acknowledgement, Delivery;
  }

  lemma {:induction false} ResendsAreResent(order: seq<u16>, inflight: map<u16, Pending>, messages: map<u16, S.Msg>)
    requires forall id :: id in order ==> id in inflight && id in messages
    requires forall id :: id in order ==> inflight[id].0 == messages[id].content.(packetId := Some(id))
    ensures E.Resends(order, inflight) == OnWire(S.Resent(order, messages))
  {
    if order != [] {
      ResendsAreResent(order[1..], inflight, messages);
      var m := messages[order[0]].content;
      assert PacketOf(m.(packetId := Some(order[0])).(dup := true), Some(order[0]))
          == PacketFor(S.Sent(order[0], messages[order[0]], true));
    }
  }

  /** Session recovery is the protocol's reconnection: the same messages, in the same order, once each. */
  lemma RecoveryIsReconnect(book: S.Client<Pending>, s: S.System, order: seq<u16>)
    requires Represents(book, s.client) && !s.connected && S.Lists(order, book.inflight)
    ensures S.Lists(order, s.client.inflight) && forall id :: id in order ==> id in book.inflight
    ensures var t := S.Next(s, S.Reconnect(order));
            && Represents(book, t.client)
            && OnWire(t.toBroker) == E.Resends(order, book.inflight)
  {
    forall id | id in order ensures id in book.inflight { S.ListedIsKey(order, book.inflight, id); }
    ResendsAreResent(order, book.inflight, s.client.inflight);
  }

  lemma PacketAtFront(ps: seq<Packet>, v: Version, more: seq<byte>)
    requires ps != [] && AllCarried(ps, v)
    ensures var bytes := Concat(Encodings(ps, v)) + more;
            && FrontOf(bytes) == Whole(|Encoded(ps[0], v)|)
            && D.Decode(bytes[..FrontOf(bytes).size], v) == Success(Some(ps[0]))
            && bytes[FrontOf(bytes).size..] == Concat(Encodings(ps[1..], v)) + more
  {
    hide Carried, Body, FirstByte, FrontOf, Frame, D.Decode, Concat, Encodings;
    var p, later := ps[0], Concat(Encodings(ps[1..], v)) + more;
    assert Carried(p, v) && Sendable(p, v);
    EncodingsFront(ps, v, more);
    FrontOfFrame(FirstByte(p), Body(p, v), later);
    R.DecodeInvertsEncoded(p, v, []);
    assert Encoded(p, v) + [] == Encoded(p, v);
    Halves(Encoded(p, v), later);
  }

  /** The broker's next packet is the first frame of the bytes, which leaves the rest of the queue on the wire. */
  lemma BrokerReadsTheFront(s: S.System, v: Version, more: seq<byte>)
    requires s.connected && s.toBroker != [] && AllCarried(OnWire(s.toBroker), v)
    ensures var bytes, t := Concat(Encodings(OnWire(s.toBroker), v)) + more, S.Next(s, S.BrokerReceives);
            && FrontOf(bytes) == Whole(|Encoded(PacketFor(s.toBroker[0]), v)|)
            && D.Decode(bytes[..FrontOf(bytes).size], v) == Success(Some(PacketFor(s.toBroker[0])))
            && bytes[FrontOf(bytes).size..] == Concat(Encodings(OnWire(t.toBroker), v)) + more
  {
    hide AllCarried, FrontOf, D.Decode, Encoded, PacketFor;
    PacketAtFront(OnWire(s.toBroker), v, more);
    assert OnWire(s.toBroker)[1..] == OnWire(s.toBroker[1..]);
  }
}
