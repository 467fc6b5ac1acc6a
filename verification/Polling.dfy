/** What the embedded client does with received packets (`poll_batch`, crates/mqtt-embedded/src/client.rs). */
module Polling {
  import opened Wrappers
  import opened Bytes
  import opened Packets
  import opened Decoder
  import opened Framing
  import opened Publishing
  import opened StreamWriter
  import I = Inflight
  import R = RoundTrip
  import W = WireFormat

  /** In-flight table, bytes sent, connection state, events to return, and the error that ended the poll. */
  datatype Polled = Polled(table: I.Table, wire: seq<byte>, connected: bool, events: seq<Packet>,
                           failed: Option<MqttError>)

  /** Bound of the table, capacity of the event vector, protocol version and size of the transmit buffer. */
  datatype Limits = Limits(room: nat, maxEvents: nat, version: Version, capacity: nat)

  function Replied(e: Polled, reply: Packet, l: Limits): Polled {
    if Fits(reply, l.version, l.capacity) then e.(wire := e.wire + Encoded(reply, l.version))
    else e.(failed := Some(MqttError.BufferTooSmall))
  }

  /** Events beyond the vector's capacity are dropped. */
  function Noted(e: Polled, p: Packet, l: Limits): Polled {
    if e.failed.Some? || |e.events| >= l.maxEvents then e else e.(events := e.events + [p])
  }

  function Moved(e: Polled, op: I.Op, l: Limits): Polled {
    if e.failed.Some? then e else e.(table := I.Applied(e.table, l.room, op).0)
  }

  /** Incoming QoS 1 and 2 messages are acknowledged, and so is every step of a QoS 2 handshake. */
  function Handled(e: Polled, p: Packet, l: Limits): Polled {
    match p
    case Publish(_, qos, _, _, packetId, _, _) =>
      if qos == AtLeastOnce && packetId.Some? then Noted(Replied(e, PubAck(Bare(packetId.value)), l), p, l)
      else if qos == ExactlyOnce && packetId.Some? then
        Noted(Moved(Replied(e, PubRec(Bare(packetId.value)), l), I.TrackInbound(packetId.value), l), p, l)
      else Noted(e, p, l)
    case PubAck(a) => Noted(Moved(e, I.GotPubAck(a.packetId), l), p, l)
    case PubRec(a) => Noted(Replied(Moved(e, I.GotPubRec(a.packetId), l), PubRel(Bare(a.packetId)), l), p, l)
    case PubRel(a) => Noted(Replied(Moved(e, I.GotPubRel(a.packetId), l), PubComp(Bare(a.packetId)), l), p, l)
    case PubComp(a) => Noted(Moved(e, I.GotPubComp(a.packetId), l), p, l)
    case SubAck(_, _, _) => Noted(e, p, l)
    case UnsubAck(_, _, _) => Noted(e, p, l)
    case PingResp => Noted(e, p, l)
    case Disconnect(_, _) => Noted(e.(connected := false), p, l)
    case _ => e
  }

  function HandledAll(e: Polled, ps: seq<Packet>, l: Limits): Polled
    decreases |ps|
  {
    if ps == [] || e.failed.Some? then e else HandledAll(Handled(e, ps[0], l), ps[1..], l)
  }

  /** Frame by frame, up to the first error. */
  function PolledFrames(e: Polled, frames: seq<seq<byte>>, l: Limits): Polled
    decreases |frames|
  {
    if frames == [] || e.failed.Some? then e
    else
      match Decode(frames[0], l.version)
      case Failure(error) => e.(failed := Some(FromPacketError(error)))
      case Success(None) => PolledFrames(e, frames[1..], l)
      case Success(Some(p)) => PolledFrames(Handled(e, p, l), frames[1..], l)
  }

  /** A whole read: an unreadable length behind the frames is an error, part of a frame is forgotten. */
  function PolledRead(e: Polled, read: seq<byte>, l: Limits): Polled {
    var done := PolledFrames(e, Frames(read), l);
    match FrontOf(Tail(read))
    case Unreadable(error) => if done.failed.Some? then done else done.(failed := Some(FromPacketError(error)))
    case _ => done
  }

  lemma {:induction false} FramesHandle(e: Polled, ps: seq<Packet>, l: Limits)
    requires AllCarried(ps, l.version)
    ensures PolledFrames(e, Encodings(ps, l.version), l) == HandledAll(e, ps, l)
    decreases |ps|
  {
    hide Carried, Decode, Encoded, Sendable, Handled;
    if ps != [] && e.failed.None? {
      R.DecodeInvertsEncoded(ps[0], l.version, []);
      assert Encoded(ps[0], l.version) + [] == Encoded(ps[0], l.version);
      FramesHandle(Handled(e, ps[0], l), ps[1..], l);
    }
  }

  /** A read that holds whole packets has their effects in order, and forgets a partial frame behind them. */
  lemma ReadHandles(e: Polled, ps: seq<Packet>, l: Limits, rest: seq<byte>)
    requires AllCarried(ps, l.version) && FrontOf(rest).Partial?
    ensures PolledRead(e, Concat(Encodings(ps, l.version)) + rest, l) == HandledAll(e, ps, l)
  {
    hide Carried, Decode, Encoded, Sendable, Handled, FrontOf, PolledFrames, HandledAll;
    FramesOfEncodings(ps, l.version, rest);
    FramesEnd(rest);
    assert Encodings(ps, l.version) + [] == Encodings(ps, l.version);
    FramesHandle(e, ps, l);
  }

  /** An unreadable length behind the packets is an error, after they have had their effects. */
  lemma UnreadableEndsThePoll(e: Polled, ps: seq<Packet>, l: Limits, rest: seq<byte>)
    requires AllCarried(ps, l.version) && FrontOf(rest).Unreadable? && HandledAll(e, ps, l).failed.None?
    ensures PolledRead(e, Concat(Encodings(ps, l.version)) + rest, l)
         == HandledAll(e, ps, l).(failed := Some(FromPacketError(FrontOf(rest).error)))
  {
    hide Carried, Decode, Encoded, Sendable, Handled, FrontOf, PolledFrames, HandledAll, FromPacketError;
    FramesOfEncodings(ps, l.version, rest);
    FramesEnd(rest);
    assert Encodings(ps, l.version) + [] == Encodings(ps, l.version);
    FramesHandle(e, ps, l);
  }

  /** A frame that does not decode ends the poll with the decoder's error; the packets before it had their effects. */
  lemma {:induction false} BadFrameEndsThePoll(e: Polled, ps: seq<Packet>, frame: seq<byte>, later: seq<seq<byte>>,
                                               l: Limits)
    requires AllCarried(ps, l.version) && Decode(frame, l.version).Failure? && HandledAll(e, ps, l).failed.None?
    requires e.failed.None?
    ensures PolledFrames(e, Encodings(ps, l.version) + [frame] + later, l)
         == HandledAll(e, ps, l).(failed := Some(FromPacketError(Decode(frame, l.version).error)))
    decreases |ps|
  {
    hide Carried, Decode, Encoded, Sendable, Handled, FromPacketError;
    if ps == [] {
      assert [] + [frame] + later == [frame] + later && ([frame] + later)[1..] == later;
      FailedPollEnds(e.(failed := Some(FromPacketError(Decode(frame, l.version).error))), later, l);
    } else {
      R.DecodeInvertsEncoded(ps[0], l.version, []);
      assert Encoded(ps[0], l.version) + [] == Encoded(ps[0], l.version);
      var f := Handled(e, ps[0], l);
      HandledFailure(f, ps[1..], l);
      BadFrameEndsThePoll(f, ps[1..], frame, later, l);
      var all := Encodings(ps, l.version) + [frame] + later;
      assert all[1..] == Encodings(ps[1..], l.version) + [frame] + later;
    }
  }

  lemma FailedPollEnds(e: Polled, frames: seq<seq<byte>>, l: Limits)
    requires e.failed.Some?
    ensures PolledFrames(e, frames, l) == e
  {
  }

  lemma HandledFailure(e: Polled, ps: seq<Packet>, l: Limits)
    ensures e.failed.Some? ==> HandledAll(e, ps, l) == e
  {
  }

  /** A buffer with no room for an acknowledgement makes the poll fail on exactly the packets that call for one. */
  lemma NoRoomForReplies(e: Polled, p: Packet, l: Limits)
    requires e.failed.None? && l.capacity < 7
    ensures var f := Handled(e, p, l);
            if RepliesTo(p) != [] then
              && f.failed == Some(MqttError.BufferTooSmall) && f.wire == e.wire && f.events == e.events
              && f.table == if p.Publish? then e.table else I.After(e.table, l.room, OpsOf(p))
            else f.failed.None?
  {
    if OpsOf(p) != [] {
      OneOp(e.table, l.room, OpsOf(p)[0]);
    }
    forall id ensures !Fits(PubAck(Bare(id)), l.version, l.capacity) && !Fits(PubRec(Bare(id)), l.version, l.capacity)
      ensures !Fits(PubRel(Bare(id)), l.version, l.capacity) && !Fits(PubComp(Bare(id)), l.version, l.capacity)
    {
      AcksNeedRoom(id, l.version, l.capacity);
    }
    hide Fits, Encoded, I.Applied, Bare;
  }

  lemma AcksNeedRoom(id: u16, v: Version, capacity: nat)
    requires capacity < 7
    ensures !Fits(PubAck(Bare(id)), v, capacity) && !Fits(PubRec(Bare(id)), v, capacity)
    ensures !Fits(PubRel(Bare(id)), v, capacity) && !Fits(PubComp(Bare(id)), v, capacity)
  {
    var a := Bare(id);
    assert |AckBytes(a, v)| == 2;
    hide AckBytes;
    assert Body(PubAck(a), v) == Body(PubRec(a), v) == Body(PubRel(a), v) == Body(PubComp(a), v) == AckBytes(a, v);
  }

  // ---- Whole handshakes ----

  function Plain(first: byte, id: u16): seq<byte> {
    [first, 0x02, id / 256, id % 256]
  }

  /** A QoS 1 message from the client is done with its PUBACK, and one to the client is answered at once. */
  lemma QoS1Completes(e: Polled, p: Packet, l: Limits)
    requires e.failed.None? && l.capacity >= 7
    ensures p.PubAck? && p.ack.packetId in e.table && e.table[p.ack.packetId] == I.AwaitingPubAck ==>
              var f := HandledAll(e, [p], l);
              f.table == e.table - {p.ack.packetId} && f.wire == e.wire && f.failed.None?
    ensures p.Publish? && p.qos == AtLeastOnce && p.packetId.Some? ==>
              var f := HandledAll(e, [p], l);
              f.table == e.table && f.wire == e.wire + Plain(0x40, p.packetId.value) && f.failed.None?
  {
    OneHandled(e, p, l);
    hide HandledAll, Fits, Encoded, Bare;
    if p.Publish? && p.packetId.Some? {
      BareReplies(p.packetId.value, l);
    }
  }

  /** A QoS 2 message from the client: PUBREC is answered with PUBREL, and PUBCOMP ends it. */
  lemma QoS2SenderCompletes(e: Polled, received: Ack, complete: Ack, l: Limits)
    requires e.failed.None? && l.capacity >= 7 && received.packetId == complete.packetId
    requires received.packetId in e.table && e.table[received.packetId] == I.AwaitingPubRec
    ensures var f := HandledAll(e, [PubRec(received), PubComp(complete)], l);
            && f.table == e.table - {received.packetId} && f.failed.None?
            && f.wire == e.wire + Plain(0x62, received.packetId)
  {
    TwoHandled(e, PubRec(received), PubComp(complete), l);
    BareReplies(received.packetId, l);
    hide HandledAll, Fits, Encoded, Bare;
    var id := received.packetId;
    assert e.table[id := I.AwaitingPubComp] - {id} == e.table - {id};
  }

  /** One to the client: PUBREC for the message, PUBCOMP for its PUBREL, and nothing stays in flight. */
  lemma QoS2ReceiverCompletes(e: Polled, p: Packet, release: Ack, l: Limits)
    requires e.failed.None? && l.capacity >= 7 && p.Publish? && p.qos == ExactlyOnce
    requires p.packetId == Some(release.packetId) && release.packetId !in e.table && |e.table| < l.room
    ensures var f := HandledAll(e, [p, PubRel(release)], l);
            && f.table == e.table && f.failed.None?
            && f.wire == e.wire + Plain(0x50, release.packetId) + Plain(0x70, release.packetId)
  {
    TwoHandled(e, p, PubRel(release), l);
    BareReplies(release.packetId, l);
    hide HandledAll, Fits, Encoded, Bare;
    var id := release.packetId;
    assert e.table[id := I.AwaitingPubRel] - {id} == e.table;
  }

  lemma OneHandled(e: Polled, p: Packet, l: Limits)
    requires e.failed.None?
    ensures HandledAll(e, [p], l) == Handled(e, p, l)
  {
    hide Handled;
    assert [p][1..] == [];
  }

  lemma TwoHandled(e: Polled, p: Packet, q: Packet, l: Limits)
    requires e.failed.None?
    ensures var f := Handled(e, p, l);
            HandledAll(e, [p, q], l) == if f.failed.None? then Handled(f, q, l) else f
  {
    hide Handled;
    var f := Handled(e, p, l);
    assert [p, q][1..] == [q];
    if f.failed.None? {
      OneHandled(f, q, l);
    }
  }

  lemma BareReplies(id: u16, l: Limits)
    requires l.capacity >= 7
    ensures Fits(PubAck(Bare(id)), l.version, l.capacity) && Encoded(PubAck(Bare(id)), l.version) == Plain(0x40, id)
    ensures Fits(PubRec(Bare(id)), l.version, l.capacity) && Encoded(PubRec(Bare(id)), l.version) == Plain(0x50, id)
    ensures Fits(PubRel(Bare(id)), l.version, l.capacity) && Encoded(PubRel(Bare(id)), l.version) == Plain(0x62, id)
    ensures Fits(PubComp(Bare(id)), l.version, l.capacity) && Encoded(PubComp(Bare(id)), l.version) == Plain(0x70, id)
  {
    AcksFit(id, l.version, l.capacity);
    W.ShortAcks(id, l.version);
    hide Fits, Encoded;
  }

  // ---- The in-flight table over a poll ----

  /** What a packet does to the in-flight table. */
  function OpsOf(p: Packet): seq<I.Op> {
    match p
    case Publish(_, qos, _, _, packetId, _, _) =>
      if qos == ExactlyOnce && packetId.Some? then [I.TrackInbound(packetId.value)] else []
    case PubAck(a) => [I.GotPubAck(a.packetId)]
    case PubRec(a) => [I.GotPubRec(a.packetId)]
    case PubRel(a) => [I.GotPubRel(a.packetId)]
    case PubComp(a) => [I.GotPubComp(a.packetId)]
    case _ => []
  }

  function AllOps(ps: seq<Packet>): seq<I.Op> {
    if ps == [] then [] else OpsOf(ps[0]) + AllOps(ps[1..])
  }

  lemma HandlingMovesTheTable(e: Polled, p: Packet, l: Limits)
    requires l.capacity >= 7 && e.failed.None?
    ensures var f := Handled(e, p, l); f.failed.None? && f.table == I.After(e.table, l.room, OpsOf(p))
  {
    hide Fits, Encoded, I.Applied, Bare;
    forall op ensures I.After(e.table, l.room, [op]) == I.Applied(e.table, l.room, op).0 { OneOp(e.table, l.room, op); }
    match p
    case Publish(_, qos, _, _, packetId, _, _) =>
      if packetId.Some? {
        AcksFit(packetId.value, l.version, l.capacity);
      }
    case PubRec(a) => AcksFit(a.packetId, l.version, l.capacity);
    case PubRel(a) => AcksFit(a.packetId, l.version, l.capacity);
    case _ =>
  }

  lemma OneOp(t: I.Table, room: nat, op: I.Op)
    ensures I.After(t, room, [op]) == I.Applied(t, room, op).0
  {
    assert [op][1..] == [];
  }

  lemma {:induction false} AfterAppend(t: I.Table, room: nat, a: seq<I.Op>, b: seq<I.Op>)
    ensures I.After(t, room, a + b) == I.After(I.After(t, room, a), room, b)
    decreases |a|
  {
    hide I.Applied;
    if a == [] {
      assert a + b == b;
    } else {
      assert (a + b)[0] == a[0] && (a + b)[1..] == a[1..] + b;
      AfterAppend(I.Applied(t, room, a[0]).0, room, a[1..], b);
    }
  }

  /** The table goes through exactly the operations of the packets, so every theorem about runs of the table applies. */
  lemma {:induction false} PollRunsTheTable(e: Polled, ps: seq<Packet>, l: Limits)
    requires l.capacity >= 7 && e.failed.None?
    ensures var f := HandledAll(e, ps, l); f.failed.None? && f.table == I.After(e.table, l.room, AllOps(ps))
    decreases |ps|
  {
    hide Handled, I.Applied, OpsOf;
    if ps != [] {
      HandlingMovesTheTable(e, ps[0], l);
      PollRunsTheTable(Handled(e, ps[0], l), ps[1..], l);
      AfterAppend(e.table, l.room, OpsOf(ps[0]), AllOps(ps[1..]));
    }
  }

  // ---- What the client answers and returns ----

  /** The acknowledgement a packet calls for. */
  function RepliesTo(p: Packet): seq<Packet> {
    match p
    case Publish(_, AtLeastOnce, _, _, Some(id), _, _) => [PubAck(Bare(id))]
    case Publish(_, ExactlyOnce, _, _, Some(id), _, _) => [PubRec(Bare(id))]
    case PubRec(a) => [PubRel(Bare(a.packetId))]
    case PubRel(a) => [PubComp(Bare(a.packetId))]
    case _ => []
  }

  function AllReplies(ps: seq<Packet>): seq<Packet> {
    if ps == [] then [] else RepliesTo(ps[0]) + AllReplies(ps[1..])
  }

  /** Packets the client does not expect cause no event. */
  function EventIn(p: Packet): (events: seq<Packet>)
    ensures |events| <= 1
  {
    if p.Connect? || p.ConnAck? || p.Subscribe? || p.Unsubscribe? || p.PingReq? then [] else [p]
  }

  function EventsOf(ps: seq<Packet>): seq<Packet> {
    if ps == [] then [] else EventIn(ps[0]) + EventsOf(ps[1..])
  }

  /** What a vector of bounded capacity holds once it has refused everything beyond it. */
  function Capped(events: seq<Packet>, max: nat): seq<Packet> {
    if |events| <= max then events else events[..max]
  }

  lemma HandlingAnswers(e: Polled, p: Packet, l: Limits)
    requires l.capacity >= 7 && e.failed.None?
    ensures var f := Handled(e, p, l);
            && f.failed.None?
            && f.wire == e.wire + Concat(Encodings(RepliesTo(p), l.version))
            && f.events == e.events + (if |e.events| < l.maxEvents then EventIn(p) else [])
            && f.connected == (e.connected && !p.Disconnect?)
  {
    NothingAnswered(l.version);
    hide Fits, Encoded, I.Applied, Bare, Concat, Encodings;
    assert e.wire + [] == e.wire && e.events + [] == e.events;
    match p
    case Publish(_, qos, _, _, packetId, _, _) =>
      if packetId.Some? {
        AcksFit(packetId.value, l.version, l.capacity);
        OneEncoding(PubAck(Bare(packetId.value)), l.version);
        OneEncoding(PubRec(Bare(packetId.value)), l.version);
      }
    case PubRec(a) =>
      AcksFit(a.packetId, l.version, l.capacity);
      OneEncoding(PubRel(Bare(a.packetId)), l.version);
    case PubRel(a) =>
      AcksFit(a.packetId, l.version, l.capacity);
      OneEncoding(PubComp(Bare(a.packetId)), l.version);
    case _ =>
  }

  /**
   Polling answers every packet of a read with its own acknowledgement, in order, and returns the packets in order up to
   the capacity of the event vector.
   */
  lemma {:induction false} PollAnswers(e: Polled, ps: seq<Packet>, l: Limits)
    requires l.capacity >= 7 && e.failed.None? && |e.events| <= l.maxEvents
    ensures var f := HandledAll(e, ps, l);
            && f.failed.None?
            && f.wire == e.wire + Concat(Encodings(AllReplies(ps), l.version))
            && f.events == Capped(e.events + EventsOf(ps), l.maxEvents)
            && f.connected == (e.connected && forall p :: p in ps ==> !p.Disconnect?)
    decreases |ps|
  {
    hide Handled, RepliesTo, EventIn, Concat, Encodings;
    if ps == [] {
      NothingAnswered(l.version);
      assert e.wire + [] == e.wire && e.events + [] == e.events;
    } else {
      var f, v := Handled(e, ps[0], l), l.version;
      HandlingAnswers(e, ps[0], l);
      PollAnswers(f, ps[1..], l);
      EncodingsAppend(RepliesTo(ps[0]), AllReplies(ps[1..]), v);
      ConcatAppend(Encodings(RepliesTo(ps[0]), v), Encodings(AllReplies(ps[1..]), v));
      Associative(e.wire, Concat(Encodings(RepliesTo(ps[0]), v)), Concat(Encodings(AllReplies(ps[1..]), v)));
      CappedStep(e.events, EventIn(ps[0]), EventsOf(ps[1..]), l.maxEvents);
      assert ps == [ps[0]] + ps[1..];
    }
  }

  lemma CappedStep(events: seq<Packet>, one: seq<Packet>, more: seq<Packet>, max: nat)
    requires |events| <= max && |one| <= 1
    ensures Capped(events + (if |events| < max then one else []) + more, max) == Capped(events + (one + more), max)
  {
    if |events| < max {
      Associative(events, one, more);
    } else {
      assert events + [] == events;
      assert (events + more)[..max] == events == (events + (one + more))[..max];
    }
  }

  lemma NothingAnswered(v: Version)
    ensures Concat(Encodings([], v)) == []
  {
  }

  // ---- Successive polls ----

  /** The frames that polls see over successive reads: each poll starts over, what is left of a read is forgotten. */
  function FramesSeen(arrivals: seq<seq<byte>>): seq<seq<byte>> {
    if arrivals == [] then [] else Frames(arrivals[0]) + FramesSeen(arrivals[1..])
  }

  /** Every read ends on a frame boundary. */
  predicate EndOnFrames(arrivals: seq<seq<byte>>) {
    forall read :: read in arrivals ==> Tail(read) == []
  }

  function Forgotten(arrivals: seq<seq<byte>>): nat {
    if arrivals == [] then 0 else |Tail(arrivals[0])| + Forgotten(arrivals[1..])
  }

  lemma {:induction false} SeenAndForgotten(arrivals: seq<seq<byte>>)
    ensures |Concat(FramesSeen(arrivals))| + Forgotten(arrivals) == |Concat(arrivals)|
    ensures Forgotten(arrivals) == 0 <==> EndOnFrames(arrivals)
  {
    hide Frames, Tail, Concat;
    if arrivals == [] {
      ConcatEmpty();
    } else {
      SeenAndForgotten(arrivals[1..]);
      FramesAndTail(arrivals[0]);
      ConcatAppend(Frames(arrivals[0]), FramesSeen(arrivals[1..]));
      assert arrivals == [arrivals[0]] + arrivals[1..];
      ConcatCons(arrivals[0], arrivals[1..]);
    }
  }

  lemma ConcatEmpty()
    ensures Concat<byte>([]) == []
  {
  }

  lemma {:induction false} WholeReadsSeeAll(arrivals: seq<seq<byte>>)
    requires EndOnFrames(arrivals)
    ensures FramesSeen(arrivals) == Frames(Concat(arrivals))
  {
    hide Frames, Tail, Concat;
    if arrivals == [] {
      ConcatEmpty();
      EmptyHasNoFrames();
    } else {
      WholeReadsSeeAll(arrivals[1..]);
      assert arrivals == [arrivals[0]] + arrivals[1..];
      ConcatCons(arrivals[0], arrivals[1..]);
      FramesResume(arrivals[0], Concat(arrivals[1..]));
      assert [] + Concat(arrivals[1..]) == Concat(arrivals[1..]);
    }
  }

  /** Polls see the frames of a stream of packets if and only if every read ends on a frame boundary. */
  lemma PollsSeeAllIff(ps: seq<Packet>, v: Version, arrivals: seq<seq<byte>>)
    requires AllCarried(ps, v) && Concat(arrivals) == Concat(Encodings(ps, v))
    ensures FramesSeen(arrivals) == Encodings(ps, v) <==> EndOnFrames(arrivals)
  {
    hide AllCarried, Encodings, Frames, Tail, EndOnFrames, FramesSeen;
    SeenAndForgotten(arrivals);
    if EndOnFrames(arrivals) {
      WholeReadsSeeAll(arrivals);
      FramesOfEncodings(ps, v, []);
      EmptyHasNoFrames();
      assert Concat(arrivals) + [] == Concat(arrivals) && Encodings(ps, v) + [] == Encodings(ps, v);
    }
  }

  /** Successive polls, until a DISCONNECT; each starts with an empty event vector. */
  function PolledReads(e: Polled, arrivals: seq<seq<byte>>, l: Limits): Polled
    decreases |arrivals|
  {
    if arrivals == [] || !e.connected then e
    else PolledReads(PolledRead(e.(events := [], failed := None), arrivals[0], l), arrivals[1..], l)
  }

  /** The packets of a first read that ends on a frame boundary. */
  lemma FirstReadHolds(ps: seq<Packet>, v: Version, first: seq<byte>, later: seq<byte>) returns (n: nat)
    requires AllCarried(ps, v) && first + later == Concat(Encodings(ps, v)) && Tail(first) == []
    ensures n <= |ps| && first == Concat(Encodings(ps[..n], v)) && later == Concat(Encodings(ps[n..], v))
  {
    hide AllCarried, Encodings, Frames, Tail, Concat;
    FramesOfEncodings(ps, v, []);
    EmptyHasNoFrames();
    assert Concat(Encodings(ps, v)) + [] == Concat(Encodings(ps, v)) && Encodings(ps, v) + [] == Encodings(ps, v);
    FramesResume(first, later);
    assert [] + later == later;
    n := |Frames(first)|;
    assert ps == ps[..n] + ps[n..];
    EncodingsAppend(ps[..n], ps[n..], v);
    ConcatAppend(Encodings(ps[..n], v), Encodings(ps[n..], v));
    Halves(Encodings(ps[..n], v), Encodings(ps[n..], v));
    Halves(Frames(first), Frames(later));
    FramesAndTail(first);
    assert Concat(Frames(first)) + [] == Concat(Frames(first));
    Halves(first, later);
    Halves(Concat(Encodings(ps[..n], v)), Concat(Encodings(ps[n..], v)));
  }

  lemma {:induction false} OpsAndRepliesAppend(a: seq<Packet>, b: seq<Packet>)
    ensures AllOps(a + b) == AllOps(a) + AllOps(b) && AllReplies(a + b) == AllReplies(a) + AllReplies(b)
  {
    hide OpsOf, RepliesTo;
    if a == [] {
      assert a + b == b;
    } else {
      assert (a + b)[0] == a[0] && (a + b)[1..] == a[1..] + b;
      OpsAndRepliesAppend(a[1..], b);
      Associative(OpsOf(a[0]), AllOps(a[1..]), AllOps(b));
      Associative(RepliesTo(a[0]), AllReplies(a[1..]), AllReplies(b));
    }
  }

  /** When every read ends on a frame boundary, the polls run the table and answer as if all packets came at once. */
  lemma {:induction false} WholeReadsHandle(e: Polled, ps: seq<Packet>, arrivals: seq<seq<byte>>, l: Limits)
    requires AllCarried(ps, l.version) && Concat(arrivals) == Concat(Encodings(ps, l.version)) && EndOnFrames(arrivals)
    requires l.capacity >= 7 && e.connected && forall p :: p in ps ==> !p.Disconnect?
    ensures var f := PolledReads(e, arrivals, l);
            && f.table == I.After(e.table, l.room, AllOps(ps))
            && f.wire == e.wire + Concat(Encodings(AllReplies(ps), l.version))
    decreases |arrivals|
  {
    hide Carried, Sendable, Encodings, Tail, Concat, HandledAll, PolledRead, AllOps, AllReplies, I.After, Encoded;
    var v := l.version;
    if arrivals == [] {
      ConcatEmpty();
      if ps != [] {
        SomethingSent(ps, v);
      }
      NothingPolled(e, l);
    } else {
      var first, later := arrivals[0], Concat(arrivals[1..]);
      assert arrivals == [first] + arrivals[1..];
      ConcatCons(first, arrivals[1..]);
      var n := FirstReadHolds(ps, v, first, later);
      var here, there := ps[..n], ps[n..];
      assert ps == here + there;
      var start := e.(events := [], failed := None);
      ReadHandles(start, here, l, []);
      EmptyIsPartial();
      assert first + [] == first;
      var f := HandledAll(start, here, l);
      PollRunsTheTable(start, here, l);
      PollAnswers(start, here, l);
      WholeReadsHandle(f, there, arrivals[1..], l);
      OpsAndRepliesAppend(here, there);
      AfterAppend(e.table, l.room, AllOps(here), AllOps(there));
      EncodingsAppend(AllReplies(here), AllReplies(there), v);
      ConcatAppend(Encodings(AllReplies(here), v), Encodings(AllReplies(there), v));
      Associative(e.wire, Concat(Encodings(AllReplies(here), v)), Concat(Encodings(AllReplies(there), v)));
    }
  }

  lemma EmptyIsPartial()
    ensures FrontOf([]).Partial?
  {
  }

  lemma SomethingSent(ps: seq<Packet>, v: Version)
    requires ps != []
    ensures Concat(Encodings(ps, v)) != []
  {
    EncodedIsNotEmpty(ps[0], v);
  }

  lemma NothingPolled(e: Polled, l: Limits)
    ensures I.After(e.table, l.room, AllOps([])) == e.table
    ensures e.wire + Concat(Encodings(AllReplies([]), l.version)) == e.wire
  {
    assert e.wire + [] == e.wire;
  }
}
