/** The QoS 1 session over byte links, once it is left alone: what is under way arrives (see `ByteSession`). */
module ByteDelivery {
  import opened Wrappers
  import opened Bytes
  import opened Packets
  import opened Framing
  import opened PacketIds
  import opened Bursts
  import opened Publishing
  import opened Receiving
  import opened Refinement
  import opened ByteSession
  import D = Decoder
  import S = Session
  import T = Trie
  import VarInt

  // ---- Coming to rest ----

  lemma NothingIsNoPacket(ps: seq<Packet>, v: Version)
    requires Concat(Encodings(ps, v)) == []
    ensures ps == []
  {
    hide *;
    if ps != [] {
      EncodingsCons(ps, v);
      EncodedIsNotEmpty(ps[0], v);
    }
  }

  /** Whatever is under way can be read: whole packets by the broker, and everything at once by the client. */
  lemma SomethingCanBeRead(steps: seq<Step>, l: Link, closed: set<T.Sender>)
    requires Goes(Start(), steps, l)
    ensures var w := Reached(Start(), steps, l);
            && (w.up && w.loop.wire != [] ==> Possible(w, BrokerReads, l))
            && (w.up && w.incoming != [] ==> Possible(w, ClientReads(|w.incoming|, closed), l))
  {
    hide *;
    StartSimulates(l);
    var events := RunsRefine(Start(), S.Initial(), steps, l);
    var w := Reached(Start(), steps, l);
    if w.up {
      ReadableHere(w, S.After(S.Initial(), events), l, closed);
    }
  }

  lemma ReadableHere(w: World, s: S.System, l: Link, closed: set<T.Sender>)
    requires Simulates(w, s, l) && w.up
    ensures w.loop.wire != [] ==> Possible(w, BrokerReads, l)
    ensures w.incoming != [] ==> Possible(w, ClientReads(|w.incoming|, closed), l)
  {
    hide *;
    UnfoldSimulates(w, s, l);
    UnfoldStands(w.loop, w.owners, w.replies, s, l);
    var ps := PacketsWritten(w.loop.wire, s.toBroker, l.version);
    var qs := PacketsComing(w.tail + w.incoming, s.toClient, l.version);
    UnfoldWritten(ps, w.loop.wire, s.toBroker, l.version);
    UnfoldAnswered(qs, w.tail + w.incoming, s.toClient, l.version);
    if w.loop.wire != [] {
      NoEncodings(ps, l.version);
      PacketAtFront(ps, l.version, []);
      assert Concat(Encodings(ps, l.version)) + [] == w.loop.wire;
      BrokerCanRead(w, l);
    }
    if w.incoming != [] {
      WholeStreamIsCalm(qs, l.version);
      ClientCanReadAll(w, closed, l);
    }
  }

  lemma WholeStreamIsCalm(qs: seq<Packet>, v: Version)
    requires AllCarried(qs, v)
    ensures !Stuck(Concat(Encodings(qs, v)))
  {
    FramesOfEncodings(qs, v, []);
    assert Concat(Encodings(qs, v)) + [] == Concat(Encodings(qs, v));
    EmptyIsCalm();
    hide FrontOf, Encodings, Concat, AllCarried;
  }

  lemma BrokerCanRead(w: World, l: Link)
    requires w.up && FrontOf(w.loop.wire).Whole?
    ensures Possible(w, BrokerReads, l)
  {
    hide FrontOf;
  }

  lemma ClientCanReadAll(w: World, closed: set<T.Sender>, l: Link)
    requires w.up && w.incoming != [] && !Stuck(w.tail + w.incoming)
    ensures Possible(w, ClientReads(|w.incoming|, closed), l)
  {
    hide Stuck;
    assert w.incoming[..|w.incoming|] == w.incoming;
  }

  /**
   With nothing under way in either direction the broker has every accepted message, and what is in flight is what it
   does not acknowledge by PUBACK or never hears of.
   */
  lemma AtRestAllIsDelivered(steps: seq<Step>, l: Link)
    requires Goes(Start(), steps, l)
    ensures var w := Reached(Start(), steps, l);
            w.up && w.loop.wire == [] && w.tail + w.incoming == [] ==> AllDelivered(w, l)
  {
    hide *;
    StartSimulates(l);
    var events := RunsRefine(Start(), S.Initial(), steps, l);
    var w := Reached(Start(), steps, l);
    if w.up && w.loop.wire == [] && w.tail + w.incoming == [] {
      RestHere(w, S.After(S.Initial(), events), l);
    }
  }

  /** No QoS 1 message that the encoder takes is in flight, and the broker has all that were accepted. */
  ghost predicate AllDelivered(w: World, l: Link) {
    && (forall id :: id in w.loop.book.inflight ==> !IsLive(id, w.loop.book.inflight[id], l))
    && forall m :: m in w.accepted ==> Delivered(w, m)
  }

  lemma RestHere(w: World, s: S.System, l: Link)
    requires Simulates(w, s, l) && w.up && w.loop.wire == [] && w.tail + w.incoming == []
    ensures AllDelivered(w, l)
  {
    hide *;
    UnfoldSimulates(w, s, l);
    UnfoldStands(w.loop, w.owners, w.replies, s, l);
    var ps := PacketsWritten([], s.toBroker, l.version);
    var qs := PacketsComing([], s.toClient, l.version);
    UnfoldWritten(ps, [], s.toBroker, l.version);
    UnfoldAnswered(qs, [], s.toClient, l.version);
    NothingIsNoPacket(ps, l.version);
    NothingIsNoPacket(qs, l.version);
    NothingPending(s);
    S.QuietMeansDelivered(s);
    EmptyBooks(LiveBook(w.loop.book, l), s.client);
    LiveIsLess(w.loop.book, l);
    forall m | m in w.accepted ensures Delivered(w, m) {
      ReceivedIsDelivered(w, s.received, m);
    }
    FoldDelivered(w, l);
  }

  lemma FoldDelivered(w: World, l: Link)
    requires forall id :: id in w.loop.book.inflight ==> !IsLive(id, w.loop.book.inflight[id], l)
    requires forall m :: m in w.accepted ==> Delivered(w, m)
    ensures AllDelivered(w, l)
  {
    hide Delivered, IsLive;
  }

  lemma NothingPending(s: S.System)
    requires OnWire(s.toBroker) == Messages([]) && s.toClient == AckIds(ActionsOf([]))
    ensures S.Pending(s) == 0
  {
  }

  lemma EmptyBooks(book: S.Client<Pending>, c: S.Client<S.Msg>)
    requires Represents(book, c) && c.inflight == map[]
    ensures book.inflight == map[]
  {
    assert book.inflight.Keys == {};
  }

  // ---- Reading to the end ----

  predicate IsRead(step: Step) {
    step.BrokerReads? || step.ClientReads?
  }

  /** Bytes under way, weighted so that every read takes some of it away, acknowledgements it causes included. */
  function Load(w: World): nat {
    3 * |w.loop.wire| + 2 * |w.tail| + 3 * |w.incoming|
  }

  ghost predicate CanRead(w: World, l: Link) {
    Possible(w, BrokerReads, l) || Possible(w, ClientReads(|w.incoming|, {}), l)
  }

  /** A message takes at least six bytes, its acknowledgement four. */
  lemma SizeOfMessage(p: Packet, v: Version)
    requires IsMessage(p) && Carried(p, v)
    ensures |Encoded(p, v)| >= 6 && Encoded(p, v) != []
  {
    assert |PacketIdBytes(p.qos, p.packetId)| == 2;
    hide PropertyField, PacketIdBytes, BigEndian16;
    assert |Body(p, v)| >= 4;
    hide Body, FirstByte;
  }

  lemma SizeOfAck(id: u16, v: Version)
    ensures |Encoded(PubAck(Bare(id)), v)| == 4
  {
    var a := Bare(id);
    assert AckBytes(a, v) == BigEndian16(id) + [];
    assert |Body(PubAck(a), v)| == 2;
    hide Body, FirstByte, AckBytes;
    VarInt.EncodingLength(2);
  }

  lemma BrokerReadShrinks(w: World, s: S.System, l: Link)
    requires Simulates(w, s, l) && Possible(w, BrokerReads, l)
    ensures Load(Moved(w, BrokerReads, l)) < Load(w) && Moved(w, BrokerReads, l).tail == w.tail
    ensures Moved(w, BrokerReads, l).up
  {
    hide *;
    UnfoldSimulates(w, s, l);
    UnfoldStands(w.loop, w.owners, w.replies, s, l);
    UnfoldBrokerReads(w, l);
    var v := l.version;
    var ps := PacketsWritten(w.loop.wire, s.toBroker, v);
    FrontIsRead(ps, w.loop.wire, s.toBroker, v);
    UnfoldWritten(ps, w.loop.wire, s.toBroker, v);
    AllCarriedCons(ps, v);
    EncodedIsNotEmpty(ps[0], v);
    var n := FrontOf(w.loop.wire).size;
    UnfoldLoad(w);
    UnfoldLoad(Moved(w, BrokerReads, l));
    if IsMessage(ps[0]) {
      SizeOfMessage(ps[0], v);
      FrontIsHead(ps, w.loop.wire, s.toBroker, v);
      BrokerTakesMessage(w, s.toBroker[0], n, v);
      SizeOfAck(s.toBroker[0].id, v);
    } else {
      BrokerTakesOther(w, ps[0], n, v);
    }
  }

  lemma UnfoldLoad(w: World)
    ensures Load(w) == 3 * |w.loop.wire| + 2 * |w.tail| + 3 * |w.incoming|
  {
  }

  /** Answering a packet takes no more than two thirds of its bytes. */
  lemma AnswerIsShort(e: Effects, p: Packet, l: Link)
    requires Carried(p, l.version)
    ensures 3 * |PerformedAll(e, ActionOf(p), l).wire| <= 3 * |e.wire| + 2 * |Encoded(p, l.version)|
  {
    if e.ended.Some? {
      EndedStays(e, ActionOf(p), [], [], l);
    } else {
      NothingPerformed(e, l);
      if ActionOf(p) != [] {
        OneAction(e, ActionOf(p)[0], l);
        assert ActionOf(p) == [ActionOf(p)[0]];
        hide PerformedAll;
        if IsMessage(p) {
          SizeOfMessage(p, l.version);
          SizeOfAck(p.packetId.value, l.version);
        }
        hide Encoded, Bare, Fits, Delivery, T.Cleared;
      }
    }
  }

  lemma {:induction false} AnswersAreShort(e: Effects, ps: seq<Packet>, l: Link)
    requires AllCarried(ps, l.version)
    ensures 3 * |PerformedAll(e, ActionsOf(ps), l).wire| <= 3 * |e.wire| + 2 * |Concat(Encodings(ps, l.version))|
    decreases |ps|
  {
    hide *;
    NothingToDo(e, l);
    if ps != [] {
      AllCarriedCons(ps, l.version);
      EncodingsCons(ps, l.version);
      ActionsOfCons(ps);
      AnswerIsShort(e, ps[0], l);
      PerformedAppend(e, ActionOf(ps[0]), ActionsOf(ps[1..]), l);
      AnswersAreShort(PerformedAll(e, ActionOf(ps[0]), l), ps[1..], l);
    }
  }

  lemma ActionsOfCons(ps: seq<Packet>)
    requires ps != []
    ensures ActionsOf(ps) == ActionOf(ps[0]) + ActionsOf(ps[1..])
  {
    hide ActionOf;
  }

  lemma ClientReadShrinks(w: World, s: S.System, size: nat, closed: set<T.Sender>, l: Link)
    requires Simulates(w, s, l) && Possible(w, ClientReads(size, closed), l)
    ensures var u := Moved(w, ClientReads(size, closed), l); Load(u) < Load(w) && !FrontOf(u.tail).Whole?
  {
    hide *;
    UnfoldSimulates(w, s, l);
    UnfoldClientReads(w, size, closed, l);
    var data, k := w.tail + w.incoming[..size], l.(closed := closed);
    var here, later := ReadTakes(w.tail, w.incoming, size, s.toClient, l.version);
    UnfoldReadEffects(w.loop, data, ActionsOf(here), k);
    AnswersAreShort(w.loop, here, k);
    var r := w.(loop := ReadEffects(w.loop, data, k), tail := Tail(data), incoming := w.incoming[size..]);
    UnfoldLoad(w);
    UnfoldLoad(r);
    UnfoldLoad(Down(r));
    TailIsPartial(data);
    DownIsEmpty(r);
  }

  lemma TailIsPartial(s: seq<byte>)
    ensures !FrontOf(Tail(s)).Whole? && !FrontOf([]).Whole?
  {
  }

  lemma DownIsEmpty(w: World)
    ensures Down(w).loop.wire == [] && Down(w).tail == [] && Down(w).incoming == []
  {
  }

  lemma ReadShrinks(w: World, s: S.System, step: Step, l: Link)
    requires Simulates(w, s, l) && Possible(w, step, l) && IsRead(step) && !FrontOf(w.tail).Whole?
    ensures Load(Moved(w, step, l)) < Load(w) && !FrontOf(Moved(w, step, l).tail).Whole?
  {
    hide Simulates, Possible, Moved, Load, FrontOf;
    match step
    case BrokerReads => BrokerReadShrinks(w, s, l);
    case ClientReads(size, closed) => ClientReadShrinks(w, s, size, closed, l);
  }

  /** What is left when nothing can be read: nothing, and everything has been delivered. */
  lemma NothingLeft(w: World, s: S.System, l: Link)
    requires Simulates(w, s, l) && !FrontOf(w.tail).Whole? && w.up && !CanRead(w, l)
    ensures AllDelivered(w, l)
  {
    hide *;
    ReadableHere(w, s, l, {});
    FoldCanRead(w, l);
    UnfoldSimulates(w, s, l);
    var qs := PacketsComing(w.tail + w.incoming, s.toClient, l.version);
    UnfoldAnswered(qs, w.tail + w.incoming, s.toClient, l.version);
    assert w.tail + [] == w.tail;
    NoEncodings(qs, l.version);
    assert Concat(Encodings(qs, l.version)) + [] == Concat(Encodings(qs, l.version));
    if qs != [] {
      PacketAtFront(qs, l.version, []);
    }
    RestHere(w, s, l);
  }

  lemma FoldCanRead(w: World, l: Link)
    ensures CanRead(w, l) <==> Possible(w, BrokerReads, l) || Possible(w, ClientReads(|w.incoming|, {}), l)
  {
    hide Possible;
  }

  /** The tail is never more than part of a frame. */
  lemma {:induction false} TailStaysPartial(w: World, s: S.System, steps: seq<Step>, l: Link)
    requires Simulates(w, s, l) && Goes(w, steps, l) && !FrontOf(w.tail).Whole?
    ensures !FrontOf(Reached(w, steps, l).tail).Whole?
    decreases |steps|
  {
    hide Simulates, Possible, Moved, FrontOf, S.Runs, S.After;
    if steps != [] {
      var first := StepRefines(w, s, steps[0], l);
      StepKeepsPartial(w, s, steps[0], l);
      TailStaysPartial(Moved(w, steps[0], l), S.After(s, first), steps[1..], l);
    }
  }

  lemma StepKeepsPartial(w: World, s: S.System, step: Step, l: Link)
    requires Simulates(w, s, l) && Possible(w, step, l) && !FrontOf(w.tail).Whole?
    ensures !FrontOf(Moved(w, step, l).tail).Whole?
  {
    if IsRead(step) {
      hide *;
      ReadShrinks(w, s, step, l);
    } else if step.SendAll? {
      hide *;
      UnfoldSendAll(w, step.messages, l);
      SendingAllKeepsTail(w, Bursts.Fresh(w.loop.book, w.loop.wire), step.messages, l);
      DownIsEmpty(SendingAll(w, Bursts.Fresh(w.loop.book, w.loop.wire), step.messages, l));
      TailIsPartial([]);
    } else {
      TailIsPartial([]);
      hide Simulates, FrontOf, Possible, Publishing.Sent, SentAll, Encoded, Booked, Fits, IsHeard;
    }
  }

  /** A run of reads is no longer than the load, and one that cannot go on has delivered everything. */
  lemma {:induction false} ReadsEnd(w: World, s: S.System, later: seq<Step>, l: Link)
    requires Simulates(w, s, l) && !FrontOf(w.tail).Whole? && Goes(w, later, l) && forall r :: r in later ==> IsRead(r)
    ensures |later| <= Load(w)
    ensures var t := Reached(w, later, l); t.up && !CanRead(t, l) ==> AllDelivered(t, l)
    decreases |later|
  {
    hide Simulates, Possible, Moved, FrontOf, Load, IsRead, CanRead, AllDelivered, S.Runs, S.After;
    if later == [] {
      if w.up && !CanRead(w, l) {
        NothingLeft(w, s, l);
      }
    } else {
      assert later[0] in later;
      var first := StepRefines(w, s, later[0], l);
      ReadShrinks(w, s, later[0], l);
      ReadsEnd(Moved(w, later[0], l), S.After(s, first), later[1..], l);
    }
  }

  /**
   After any run, left alone, broker and client can read no more than `Load` times. Once nothing is left to read, and no
   DISCONNECT was among it, the broker has decoded every accepted message and none of them is in flight.
   */
  lemma ReadsFinish(steps: seq<Step>, later: seq<Step>, l: Link)
    requires Goes(Start(), steps, l) && Goes(Reached(Start(), steps, l), later, l)
    requires forall r :: r in later ==> IsRead(r)
    ensures |later| <= Load(Reached(Start(), steps, l))
    ensures var t := Reached(Reached(Start(), steps, l), later, l); t.up && !CanRead(t, l) ==> AllDelivered(t, l)
  {
    hide *;
    StartSimulates(l);
    StartIsPartial();
    var events := RunsRefine(Start(), S.Initial(), steps, l);
    TailStaysPartial(Start(), S.Initial(), steps, l);
    ReadsEnd(Reached(Start(), steps, l), S.After(S.Initial(), events), later, l);
  }

  lemma StartIsPartial()
    ensures !FrontOf(Start().tail).Whole?
  {
  }

  // ---- A run ----

  /** Such runs go all the way: a message is sent, read and acknowledged. */
  lemma OneMessageRuns(m: PublishMessage, l: Link)
    requires m.qos == AtLeastOnce && Good(PacketOf(m, Some(1)), l.version)
    requires Fits(PacketOf(m, Some(1)), l.version, l.capacity)
    ensures var size := |Encoded(PubAck(Bare(1)), l.version)|;
            var steps := [Send(m, None), BrokerReads, ClientReads(size, {})];
            Goes(Start(), steps, l) && Delivered(Reached(Start(), steps, l), S.Msg(0, m))
  {
    hide *;
    var p, ack, v := PacketOf(m, Some(1)), PubAck(Bare(1)), l.version;
    var size := |Encoded(ack, v)|;
    FirstSend(m, l);
    var w1 := Moved(Start(), Send(m, None), l);
    OneFrame(p, v);
    BrokerCanRead(w1, l);
    UnfoldBrokerReads(w1, l);
    var w2 := Moved(w1, BrokerReads, l);
    FirstRead(w1, m, v);
    PubAckIsGood(1, v);
    OneFrame(ack, v);
    EncodedIsNotEmpty(ack, v);
    assert w2.tail + w2.incoming == Encoded(ack, v);
    ClientCanReadAll(w2, {}, l);
    ReadKeepsReceived(w2, size, {}, l);
    ThreeSteps(Start(), Send(m, None), BrokerReads, ClientReads(size, {}), l);
    ReceivedIsDelivered(Moved(w2, ClientReads(size, {}), l), [S.Msg(0, m)], S.Msg(0, m));
  }

  lemma FirstSend(m: PublishMessage, l: Link)
    requires m.qos == AtLeastOnce && Good(PacketOf(m, Some(1)), l.version)
    requires Fits(PacketOf(m, Some(1)), l.version, l.capacity)
    ensures Possible(Start(), Send(m, None), l)
    ensures var w := Moved(Start(), Send(m, None), l);
            && w.up && w.loop.wire == Encoded(PacketOf(m, Some(1)), l.version)
            && w.tail == [] && w.incoming == [] && w.received == []
  {
    hide Carried, Sendable, Fits, Encoded, PacketOf;
    assert Start().loop.book == S.Client(1, map[]);
    assert TakenId(m, 1) == Some(1);
    var bytes := Encoded(PacketOf(m, Some(1)), l.version);
    assert [] + bytes == bytes;
  }

  lemma OneFrame(p: Packet, v: Version)
    requires Good(p, v)
    ensures FrontOf(Encoded(p, v)) == Whole(|Encoded(p, v)|) && !Stuck(Encoded(p, v))
    ensures D.Decode(Encoded(p, v)[..|Encoded(p, v)|], v) == Success(Some(p))
  {
    hide Carried, Sendable, Encoded, FrontOf, D.Decode, Stuck;
    OneEncoding(p, v);
    PacketAtFront([p], v, []);
    WholeStreamIsCalm([p], v);
    assert Encoded(p, v) + [] == Encoded(p, v);
  }

  lemma FirstRead(w: World, m: PublishMessage, v: Version)
    requires m.qos == AtLeastOnce && w.loop.wire == Encoded(PacketOf(m, Some(1)), v)
    requires w.up && w.tail == [] && w.incoming == [] && w.received == []
    ensures var p := PacketOf(m, Some(1));
            var r := BrokerTakes(w, Success(Some(p)), |Encoded(p, v)|, v);
            && r.up && r.tail == [] && r.incoming == Encoded(PubAck(Bare(1)), v) && r.received == [p]
            && AllCarry(r.received, [S.Msg(0, m)])
  {
    hide Encoded, Bare;
    assert [] + Encoded(PubAck(Bare(1)), v) == Encoded(PubAck(Bare(1)), v);
  }

  lemma ReadKeepsReceived(w: World, size: nat, closed: set<T.Sender>, l: Link)
    requires Possible(w, ClientReads(size, closed), l)
    ensures Moved(w, ClientReads(size, closed), l).received == w.received
  {
    hide *;
    UnfoldClientReads(w, size, closed, l);
    var data := w.tail + w.incoming[..size];
    DownKeepsReceived(w.(loop := ReadEffects(w.loop, data, l.(closed := closed)), tail := Tail(data),
                         incoming := w.incoming[size..]));
  }

  lemma DownKeepsReceived(w: World)
    ensures Down(w).received == w.received
  {
  }

  lemma ThreeSteps(w: World, a: Step, b: Step, c: Step, l: Link)
    requires Possible(w, a, l) && Possible(Moved(w, a, l), b, l) && Possible(Moved(Moved(w, a, l), b, l), c, l)
    ensures Goes(w, [a, b, c], l) && Reached(w, [a, b, c], l) == Moved(Moved(Moved(w, a, l), b, l), c, l)
  {
    hide Possible, Moved;
    var x, y := Moved(w, a, l), Moved(Moved(w, a, l), b, l);
    NoSteps(Moved(y, c, l), l);
    StepFirst(y, c, [], l);
    StepFirst(x, b, [c], l);
    StepFirst(w, a, [b, c], l);
    assert [c] + [] == [c] && [b] + [c] == [b, c] && [a] + [b, c] == [a, b, c];
  }

  lemma NoSteps(w: World, l: Link)
    ensures Goes(w, [], l) && Reached(w, [], l) == w
  {
  }

  lemma StepFirst(w: World, a: Step, steps: seq<Step>, l: Link)
    requires Possible(w, a, l) && Goes(Moved(w, a, l), steps, l)
    ensures Goes(w, [a] + steps, l) && Reached(w, [a] + steps, l) == Reached(Moved(w, a, l), steps, l)
  {
    hide Possible, Moved;
    assert ([a] + steps)[1..] == steps;
  }
}
