/** Burst publishing of the Tokio client (`send_publish_batch_direct`, crates/mqtt-tokio/src/eventloop.rs). */
module Bursts {
  import opened Wrappers
  import opened Bytes
  import opened Packets
  import opened Encoder
  import opened Framing
  import opened Publishing
  import opened Receiving
  import S = Session

  /** The in-flight map and the identifier counter once a message has been taken. */
  function Booked(book: S.Client<Pending>, m: PublishMessage, ack: Option<Reply>): S.Client<Pending> {
    if m.qos == AtMostOnce then book else S.Accept(book, (m.(packetId := Some(book.nextId)), ack))
  }

  function BookedAll(book: S.Client<Pending>, ms: seq<PublishMessage>): S.Client<Pending>
    decreases |ms|
  {
    if ms == [] then book else BookedAll(Booked(book, ms[0], None), ms[1..])
  }

  /** `out` is what has been written followed by the `buffered` bytes that have not. */
  datatype Burst = Burst(book: S.Client<Pending>, out: seq<byte>, buffered: nat, sent: nat, failed: Option<ClientError>)

  /**
   A message that does not fit behind the buffered bytes flushes them and is tried again; one that the encoder refuses
   is skipped while nothing is buffered and fatal once something is.
   */
  function Taken(b: Burst, m: PublishMessage, v: Version, capacity: nat): (r: Burst)
    requires b.buffered <= capacity
    ensures r.buffered <= capacity
  {
    var p, book := PacketOf(m, TakenId(m, b.book.nextId)), Booked(b.book, m, None);
    if LengthsFit(p) && Space(p, v) <= capacity - b.buffered then
      Burst(book, b.out + Encoded(p, v), b.buffered + |Encoded(p, v)|, b.sent + 1, None)
    else if Panics(p, v, capacity - b.buffered) then b.(book := book, failed := Some(Panic))
    else if b.buffered == 0 then b.(book := book)
    else if Fits(p, v, capacity) then Burst(book, b.out + Encoded(p, v), |Encoded(p, v)|, b.sent + 1, None)
    else Burst(book, b.out, 0, b.sent, Some(if Panics(p, v, capacity) then Panic else MalformedPacket))
  }

  function TakenAll(b: Burst, ms: seq<PublishMessage>, v: Version, capacity: nat): (r: Burst)
    requires b.buffered <= capacity
    decreases |ms|
  {
    if ms == [] || b.failed.Some? then b else TakenAll(Taken(b, ms[0], v, capacity), ms[1..], v, capacity)
  }

  /** Short of a panic, taking a message depends only on whether it fits alone. */
  lemma TakenStep(b: Burst, m: PublishMessage, v: Version, capacity: nat)
    requires b.buffered <= capacity && b.failed.None?
    ensures var p, r := PacketOf(m, TakenId(m, b.book.nextId)), Taken(b, m, v, capacity);
            && r.book == Booked(b.book, m, None)
            && (r.failed != Some(Panic) ==>
                  && r.out == b.out + Sent(p, v, capacity)
                  && r.sent == b.sent + (if Fits(p, v, capacity) then 1 else 0)
                  && r.failed == (if !Fits(p, v, capacity) && b.buffered > 0 then Some(MalformedPacket) else None)
                  && (r.failed.None? ==> (r.buffered > 0 <==> b.buffered > 0 || Fits(p, v, capacity))))
            && (Sendable(p, v) ==> r.failed != Some(Panic))
  {
    var p := PacketOf(m, TakenId(m, b.book.nextId));
    assert !p.Disconnect?;
    EncodedIsNotEmpty(p, v);
    if Sendable(p, v) {
      SendableNeverPanics(p, v, capacity - b.buffered);
      SendableNeverPanics(p, v, capacity);
    }
    assert b.out + [] == b.out;
    hide PacketOf, Encoded, LengthsFit, Space, Panics, Sendable, Booked;
  }

  predicate AllSendable(ps: seq<Packet>, v: Version) {
    forall p :: p in ps ==> Sendable(p, v)
  }

  /** With bodies within the protocol's limit no encoder panics. */
  lemma {:induction false} SendableBurstNeverPanics(b: Burst, ms: seq<PublishMessage>, v: Version, capacity: nat)
    requires b.buffered <= capacity && b.failed != Some(Panic) && AllSendable(Stamped(ms, b.book.nextId), v)
    ensures TakenAll(b, ms, v, capacity).failed != Some(Panic)
    decreases |ms|
  {
    hide Booked, PacketOf, Stamped, TakenId, Taken, Sendable, Fits, Sent;
    if ms != [] && b.failed.None? {
      StampedStep(ms, b.book);
      TakenStep(b, ms[0], v, capacity);
      var ps := Stamped(ms, b.book.nextId);
      assert ps[0] in ps && ps[1..] == Stamped(ms[1..], Taken(b, ms[0], v, capacity).book.nextId);
      SendableBurstNeverPanics(Taken(b, ms[0], v, capacity), ms[1..], v, capacity);
    }
  }

  lemma BookedId(book: S.Client<Pending>, m: PublishMessage, ack: Option<Reply>)
    ensures Booked(book, m, ack).nextId == IdAfter(m, book.nextId)
  {
  }

  lemma StampedStep(ms: seq<PublishMessage>, book: S.Client<Pending>)
    requires ms != []
    ensures Stamped(ms, book.nextId)
         == [PacketOf(ms[0], TakenId(ms[0], book.nextId))] + Stamped(ms[1..], Booked(book, ms[0], None).nextId)
  {
    BookedId(book, ms[0], None);
  }

  /** A failure is final. */
  lemma FailureSticks(b: Burst, ms: seq<PublishMessage>, v: Version, capacity: nat)
    requires b.buffered <= capacity && ms != []
    ensures b.failed.Some? ==> TakenAll(b, ms, v, capacity) == b
    ensures var next := Taken(b, ms[0], v, capacity);
            b.failed.None? && next.failed.Some? ==> TakenAll(b, ms, v, capacity) == next
  {
    hide Taken;
  }

  /** Every message that fits alone goes out, in order, under its own identifier. */
  lemma {:induction false} FittingBurstSends(b: Burst, ms: seq<PublishMessage>, v: Version, capacity: nat)
    requires b.buffered <= capacity && b.failed.None? && AllFit(Stamped(ms, b.book.nextId), v, capacity)
    requires TakenAll(b, ms, v, capacity).failed != Some(Panic)
    ensures var r, ps := TakenAll(b, ms, v, capacity), Stamped(ms, b.book.nextId);
            && r.failed.None? && r.sent == b.sent + |ms|
            && r.out == b.out + Concat(Encodings(ps, v))
            && r.book == BookedAll(b.book, ms)
    decreases |ms|
  {
    hide Fits, Encoded, Booked, PacketOf, Stamped, TakenId, Taken;
    var ps := Stamped(ms, b.book.nextId);
    if ms == [] {
      StampedNothing(b.book.nextId);
      assert Concat(Encodings(ps, v)) == [] && b.out + [] == b.out;
    } else {
      StampedStep(ms, b.book);
      assert ps[0] in ps;
      var next := Taken(b, ms[0], v, capacity);
      TakenStep(b, ms[0], v, capacity);
      FailureSticks(b, ms, v, capacity);
      assert ps[1..] == Stamped(ms[1..], next.book.nextId);
      FittingBurstSends(next, ms[1..], v, capacity);
      var later := Concat(Encodings(ps[1..], v));
      assert Concat(Encodings(ps, v)) == Encoded(ps[0], v) + later;
      Associative(b.out, Encoded(ps[0], v), later);
    }
  }

  lemma StampedNothing(nextId: u16)
    ensures Stamped([], nextId) == []
  {
  }

  /** Refused messages among those of a burst that ends well are left out without notice. */
  lemma {:induction false} BurstSkips(b: Burst, ms: seq<PublishMessage>, v: Version, capacity: nat)
    requires b.buffered <= capacity && TakenAll(b, ms, v, capacity).failed.None?
    ensures var r, ps := TakenAll(b, ms, v, capacity), Stamped(ms, b.book.nextId);
            && r.out == b.out + SentAll(ps, v, capacity)
            && r.book == BookedAll(b.book, ms)
            && b.sent <= r.sent <= b.sent + |ms|
            && (r.sent == b.sent + |ms| ==> AllFit(ps, v, capacity))
    decreases |ms|
  {
    hide Fits, Sent, Booked, PacketOf, Stamped, TakenId, Taken;
    var ps := Stamped(ms, b.book.nextId);
    if ms == [] {
      StampedNothing(b.book.nextId);
      assert b.out + SentAll(ps, v, capacity) == b.out;
    } else {
      StampedStep(ms, b.book);
      var next := Taken(b, ms[0], v, capacity);
      TakenStep(b, ms[0], v, capacity);
      FailureSticks(b, ms, v, capacity);
      assert ps[1..] == Stamped(ms[1..], next.book.nextId);
      BurstSkips(next, ms[1..], v, capacity);
      Associative(b.out, Sent(ps[0], v, capacity), SentAll(ps[1..], v, capacity));
      assert ps == [ps[0]] + ps[1..];
    }
  }

  /** Short of a panic, a burst fails exactly when a message the encoder refuses comes behind one it takes. */
  lemma {:induction false} BurstFailsIff(b: Burst, ms: seq<PublishMessage>, v: Version, capacity: nat)
    requires b.buffered <= capacity && b.failed.None? && TakenAll(b, ms, v, capacity).failed != Some(Panic)
    ensures var ps := Stamped(ms, b.book.nextId);
            TakenAll(b, ms, v, capacity).failed == Some(MalformedPacket)
            <==> exists j :: 0 <= j < |ps| && !Fits(ps[j], v, capacity)
                             && (b.buffered > 0 || exists i :: 0 <= i < j && Fits(ps[i], v, capacity))
    decreases |ms|
  {
    hide Fits, Sent, Booked, PacketOf, Stamped, TakenId, Taken;
    var ps := Stamped(ms, b.book.nextId);
    if ms != [] {
      StampedStep(ms, b.book);
      var next := Taken(b, ms[0], v, capacity);
      TakenStep(b, ms[0], v, capacity);
      assert ps[1..] == Stamped(ms[1..], next.book.nextId);
      if next.failed.Some? {
        FailureSticks(b, ms, v, capacity);
        assert !Fits(ps[0], v, capacity) && b.buffered > 0;
      } else {
        BurstFailsIff(next, ms[1..], v, capacity);
        FailureShifts(ps, b.buffered > 0, v, capacity);
      }
    }
  }

  lemma FailureShifts(ps: seq<Packet>, started: bool, v: Version, capacity: nat)
    requires ps != [] && (Fits(ps[0], v, capacity) || !started)
    ensures (exists j :: 0 <= j < |ps| && !Fits(ps[j], v, capacity)
                         && (started || exists i :: 0 <= i < j && Fits(ps[i], v, capacity)))
       <==> exists j :: 0 <= j < |ps[1..]| && !Fits(ps[1..][j], v, capacity)
                        && (started || Fits(ps[0], v, capacity)
                               || exists i :: 0 <= i < j && Fits(ps[1..][i], v, capacity))
  {
    hide Fits;
    var fits := Fits(ps[0], v, capacity);
    if j :| 0 <= j < |ps| && !Fits(ps[j], v, capacity)
            && (started || exists i :: 0 <= i < j && Fits(ps[i], v, capacity)) {
      assert j > 0;
      assert ps[1..][j - 1] == ps[j];
      if !started && !fits {
        var i :| 0 <= i < j && Fits(ps[i], v, capacity);
        assert ps[1..][i - 1] == ps[i];
      }
    }
    if j :| 0 <= j < |ps[1..]| && !Fits(ps[1..][j], v, capacity)
            && (started || fits || exists i :: 0 <= i < j && Fits(ps[1..][i], v, capacity)) {
      assert ps[1..][j] == ps[j + 1];
      if !started && !fits {
        var i :| 0 <= i < j && Fits(ps[1..][i], v, capacity);
        assert ps[1..][i] == ps[i + 1];
      }
    }
  }

  function Fresh(book: S.Client<Pending>, wire: seq<byte>): Burst {
    Burst(book, wire, 0, 0, None)
  }

  /** With bodies within the protocol's limit, a burst is completely sent exactly when every message fits alone. */
  lemma BurstCompleteIff(book: S.Client<Pending>, wire: seq<byte>, ms: seq<PublishMessage>, v: Version, capacity: nat)
    ensures var r, ps := TakenAll(Fresh(book, wire), ms, v, capacity), Stamped(ms, book.nextId);
            && (r.failed.None? && r.sent == |ms| <==> AllFit(ps, v, capacity) && r.failed != Some(Panic))
            && (AllSendable(ps, v) ==> r.failed != Some(Panic))
  {
    hide Stamped, TakenAll, AllFit, AllSendable;
    var b := Fresh(book, wire);
    var r := TakenAll(b, ms, v, capacity);
    if AllFit(Stamped(ms, book.nextId), v, capacity) && r.failed != Some(Panic) {
      FittingBurstSends(b, ms, v, capacity);
    } else if r.failed.None? {
      BurstSkips(b, ms, v, capacity);
    }
    if AllSendable(Stamped(ms, book.nextId), v) {
      SendableBurstNeverPanics(b, ms, v, capacity);
    }
  }

  /** What a broker decodes out of such a burst, over any reads, is the burst. */
  lemma BurstDelivers(book: S.Client<Pending>, ms: seq<PublishMessage>, v: Version, capacity: nat,
                      chunks: seq<seq<byte>>)
    requires AllFit(Stamped(ms, book.nextId), v, capacity) && AllCarried(Stamped(ms, book.nextId), v)
    requires Concat(chunks) == TakenAll(Fresh(book, []), ms, v, capacity).out
    ensures DecodeAll(FramesOfReads([], chunks), v) == Framing.Received(Stamped(ms, book.nextId))
  {
    hide Stamped, TakenAll, AllFit, FramesOfReads, DecodeAll, Framing.Received, Encodings;
    SendableBurstNeverPanics(Fresh(book, []), ms, v, capacity);
    FittingBurstSends(Fresh(book, []), ms, v, capacity);
    var ps := Stamped(ms, book.nextId);
    assert [] + Concat(Encodings(ps, v)) == Concat(Encodings(ps, v));
    PeerReceives(ps, v, chunks);
  }

  /** In particular the broker finds DUP exactly on the messages that have it, and topics and payloads as given. */
  lemma BurstIsDecoded(book: S.Client<Pending>, ms: seq<PublishMessage>, v: Version, capacity: nat,
                       chunks: seq<seq<byte>>, i: nat)
    requires AllFit(Stamped(ms, book.nextId), v, capacity) && AllCarried(Stamped(ms, book.nextId), v)
    requires Concat(chunks) == TakenAll(Fresh(book, []), ms, v, capacity).out && i < |ms|
    ensures var r, m := DecodeAll(FramesOfReads([], chunks), v), ms[i];
            && |r| == |ms| && r[i].Success? && r[i].value.Some?
            && var p := r[i].value.value;
               && p.Publish? && p == Publish(m.dup, m.qos, m.retain, m.topic, p.packetId, m.payload, [])
               && (p.packetId.Some? <==> m.qos != AtMostOnce)
  {
    hide Stamped, TakenAll, AllFit, FramesOfReads, DecodeAll, AllCarried, Fresh;
    BurstDelivers(book, ms, v, capacity, chunks);
    StampedCarries(ms, book.nextId, i);
    ReceivedAt(Stamped(ms, book.nextId), i);
  }
}
