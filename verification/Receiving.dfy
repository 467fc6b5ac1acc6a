/** What the event loop does with the packets it receives (crates/mqtt-tokio/src/eventloop.rs). */
module Receiving {
  import opened Wrappers
  import opened Bytes
  import opened Packets
  import opened Decoder
  import opened Framing
  import opened Publishing
  import PacketErrors
  import RoundTrip
  import S = Session
  import T = Trie
  import Topics
  import Totality
  import W = WireFormat

  /** A oneshot channel back to a caller. */
  type Reply = nat

  /** The last two are not values of the source: they mark where it panics, and where a drain loop does not end. */
  datatype ClientError =
    | MalformedPacket
    | InvalidResponse
    | NotConnected
    | UnexpectedEof
    | ConnectionRefused(code: byte)
    | Panic
    | DrainNeverEnds

  /** A message in flight and the caller waiting for its acknowledgement. */
  type Pending = (PublishMessage, Option<Reply>)

  // ---- What is taken out of the frames ----

  datatype Action =
    | OnPublish(message: PublishMessage)
    | OnPubAck(id: u16)
    | OnSubAck(id: u16)
    | OnUnsubAck(id: u16)
    | OnPingResp
    | OnDisconnect

  /** Packets the client does not expect, PUBREC and PUBCOMP among them, cause no action. */
  function ActionOf(p: Packet): seq<Action> {
    match p
    case Publish(dup, qos, retain, topic, id, payload, _) =>
      [OnPublish(PublishMessage(topic, payload, qos, retain, dup, id))]
    case PubAck(a) => [OnPubAck(a.packetId)]
    case SubAck(id, _, _) => [OnSubAck(id)]
    case UnsubAck(id, _, _) => [OnUnsubAck(id)]
    case PingResp => [OnPingResp]
    case Disconnect(_, _) => [OnDisconnect]
    case _ => []
  }

  function ActionsOf(ps: seq<Packet>): seq<Action> {
    if ps == [] then [] else ActionOf(ps[0]) + ActionsOf(ps[1..])
  }

  /** One undecodable frame spoils the whole read. */
  function Actions(frames: seq<seq<byte>>, v: Version, sofar: seq<Action>): Result<seq<Action>, ClientError>
    decreases |frames|
  {
    if frames == [] then Success(sofar)
    else
      match Decode(frames[0], v)
      case Failure(_) => Failure(InvalidResponse)
      case Success(None) => Actions(frames[1..], v, sofar)
      case Success(Some(p)) => Actions(frames[1..], v, sofar + ActionOf(p))
  }

  lemma {:induction false} ActionsAppend(a: seq<seq<byte>>, b: seq<seq<byte>>, v: Version, sofar: seq<Action>)
    ensures Actions(a + b, v, sofar)
         == if Actions(a, v, sofar).Success? then Actions(b, v, Actions(a, v, sofar).value)
            else Failure(InvalidResponse)
    decreases |a|
  {
    hide Decode, ActionOf;
    if a == [] {
      assert a + b == b;
    } else {
      assert (a + b)[0] == a[0] && (a + b)[1..] == a[1..] + b;
      var next := if Decode(a[0], v).Success? && Decode(a[0], v).value.Some?
                  then sofar + ActionOf(Decode(a[0], v).value.value)
                  else sofar;
      ActionsAppend(a[1..], b, v, next);
    }
  }

  lemma {:induction false} ActionsSoFar(frames: seq<seq<byte>>, v: Version, sofar: seq<Action>)
    ensures Actions(frames, v, sofar)
         == if Actions(frames, v, []).Success? then Success(sofar + Actions(frames, v, []).value)
            else Failure(InvalidResponse)
    decreases |frames|
  {
    hide Decode, ActionOf;
    if frames == [] {
      assert sofar + [] == sofar;
    } else if Decode(frames[0], v).Success? {
      var one := if Decode(frames[0], v).value.Some? then ActionOf(Decode(frames[0], v).value.value) else [];
      ActionsSoFar(frames[1..], v, sofar + one);
      ActionsSoFar(frames[1..], v, one);
      assert [] + one == one && sofar + [] == sofar;
      if Actions(frames[1..], v, []).Success? {
        var later := Actions(frames[1..], v, []).value;
        assert sofar + one + later == sofar + (one + later);
      }
    }
  }

  /** The frames of packets cause the packets' actions, in order. */
  lemma {:induction false} ActionsOfEncodings(ps: seq<Packet>, v: Version, sofar: seq<Action>)
    requires AllCarried(ps, v)
    ensures Actions(Encodings(ps, v), v, sofar) == Success(sofar + ActionsOf(ps))
    decreases |ps|
  {
    hide Carried, Decode, Encoded, Sendable, ActionOf;
    if ps == [] {
      assert sofar + [] == sofar;
    } else {
      RoundTrip.DecodeInvertsEncoded(ps[0], v, []);
      assert Encoded(ps[0], v) + [] == Encoded(ps[0], v);
      ActionsOfEncodings(ps[1..], v, sofar + ActionOf(ps[0]));
      assert sofar + ActionOf(ps[0]) + ActionsOf(ps[1..]) == sofar + ActionsOf(ps);
    }
  }

  lemma {:induction false} ActionsOfAppend(a: seq<Packet>, b: seq<Packet>)
    ensures ActionsOf(a + b) == ActionsOf(a) + ActionsOf(b)
  {
    hide ActionOf;
    if a == [] {
      assert a + b == b;
    } else {
      assert (a + b)[0] == a[0] && (a + b)[1..] == a[1..] + b;
      ActionsOfAppend(a[1..], b);
      Associative(ActionOf(a[0]), ActionsOf(a[1..]), ActionsOf(b));
    }
  }

  // ---- What the actions do ----

  /** Protocol version, size of the transmit buffer, and the subscriber channels that are closed. */
  datatype Link = Link(version: Version, capacity: nat, closed: set<T.Sender>)

  /** A message handed to the router, and the subscribers it was sent to. */
  type Dispatched = (PublishMessage, multiset<T.Sender>)

  /** Bookkeeping, live registrations, bytes written, callers told, messages dispatched, and the connection's end. */
  datatype Effects = Effects(
    book: S.Client<Pending>,
    subscribes: map<u16, Reply>,
    unsubscribes: map<u16, Reply>,
    regs: seq<T.Reg>,
    wire: seq<byte>,
    told: seq<Reply>,
    dispatched: seq<Dispatched>,
    ended: Option<ClientError>)

  /** A topic as the router sees it: one character for each byte, which keeps `/`, `+`, `#` and NUL apart. */
  function Chars(s: seq<byte>): (t: string)
    ensures |t| == |s| && forall i :: 0 <= i < |s| ==> t[i] == s[i] as char
  {
    seq(|s|, i requires 0 <= i < |s| => s[i] as char)
  }

  function Levels(topic: seq<byte>): seq<string> {
    Topics.Split(Chars(topic))
  }

  /** The acknowledgement owed for a received message: only QoS 1 is acknowledged. */
  function Acknowledgement(m: PublishMessage, l: Link): seq<byte> {
    if m.qos == AtLeastOnce && m.packetId.Some? then Sent(PubAck(Bare(m.packetId.value)), l.version, l.capacity) else []
  }

  /** One send to each live registration that matches. */
  function Delivery(m: PublishMessage, regs: seq<T.Reg>, l: Link): Dispatched {
    (m, multiset(T.Targets(regs, Levels(m.topic), l.closed)))
  }

  function Caller(inflight: map<u16, Pending>, id: u16): seq<Reply> {
    if id in inflight && inflight[id].1.Some? then [inflight[id].1.value] else []
  }

  function Told(m: map<u16, Reply>, id: u16): seq<Reply> {
    if id in m then [m[id]] else []
  }

  function Performed(e: Effects, a: Action, l: Link): Effects {
    match a
    case OnPublish(m) =>
      e.(wire := e.wire + Acknowledgement(m, l), dispatched := e.dispatched + [Delivery(m, e.regs, l)],
         regs := T.Cleared(e.regs, Levels(m.topic), l.closed))
    case OnPubAck(id) => e.(book := S.Acknowledge(e.book, id), told := e.told + Caller(e.book.inflight, id))
    case OnSubAck(id) => e.(subscribes := e.subscribes - {id}, told := e.told + Told(e.subscribes, id))
    case OnUnsubAck(id) => e.(unsubscribes := e.unsubscribes - {id}, told := e.told + Told(e.unsubscribes, id))
    case OnPingResp => e
    case OnDisconnect => e.(ended := Some(NotConnected))
  }

  /** All actions in order, up to a DISCONNECT. */
  function PerformedAll(e: Effects, actions: seq<Action>, l: Link): Effects
    decreases |actions|
  {
    if actions == [] || e.ended.Some? then e else PerformedAll(Performed(e, actions[0], l), actions[1..], l)
  }

  lemma {:induction false} PerformedAppend(e: Effects, a: seq<Action>, b: seq<Action>, l: Link)
    ensures PerformedAll(e, a + b, l) == PerformedAll(PerformedAll(e, a, l), b, l)
    decreases |a|
  {
    hide Performed;
    if a == [] {
      assert a + b == b;
    } else if e.ended.None? {
      assert (a + b)[0] == a[0] && (a + b)[1..] == a[1..] + b;
      PerformedAppend(Performed(e, a[0], l), a[1..], b, l);
    }
  }

  // ---- Successive reads ----

  /**
   One read: `data` is what was left over and what came in. It is decoded as a whole before anything is done; an
   undecodable frame ends the connection, and so does, in effect, an unreadable length behind the frames, on which the
   drain loop runs for ever.
   */
  function ReadEffects(e: Effects, data: seq<byte>, l: Link): Effects {
    match Actions(Frames(data), l.version, [])
    case Failure(error) => e.(ended := Some(error))
    case Success(actions) => if Stuck(data) then e.(ended := Some(DrainNeverEnds)) else PerformedAll(e, actions, l)
  }

  /** Reads until the connection ends, starting with `tail` already buffered; an empty read is the end of the stream. */
  function EffectsOfReads(e: Effects, tail: seq<byte>, chunks: seq<seq<byte>>, l: Link): Effects
    decreases |chunks|
  {
    if chunks == [] || e.ended.Some? then e
    else if chunks[0] == [] then e.(ended := Some(UnexpectedEof))
    else EffectsOfReads(ReadEffects(e, tail + chunks[0], l), Tail(tail + chunks[0]), chunks[1..], l)
  }

  /** Once the connection is over, nothing has any effect. */
  lemma EndedStays(e: Effects, actions: seq<Action>, tail: seq<byte>, chunks: seq<seq<byte>>, l: Link)
    requires e.ended.Some?
    ensures PerformedAll(e, actions, l) == e && EffectsOfReads(e, tail, chunks, l) == e
  {
  }

  /** No frame that is cut out of the buffer makes a decoder panic, so every failure is an ordinary error. */
  lemma FramesNeverPanic(data: seq<byte>, v: Version)
    ensures forall f :: f in Frames(data) ==> Decode(f, v) != Failure(PacketErrors.SliceOutOfRange)
  {
    hide Decode, Frames;
    FramesAreExact(data);
    forall f | f in Frames(data) ensures Decode(f, v) != Failure(PacketErrors.SliceOutOfRange) {
      Totality.ExactFramesNeverPanic(f, v);
    }
  }

  /**
   Reads that survive every boundary have, however they cut a decodable stream, the effects of its frames in order;
   `sofar` is what came before, its tail still in the buffer.
   */
  lemma {:induction false} ReadsPerform(e: Effects, sofar: seq<byte>, chunks: seq<seq<byte>>, l: Link)
    requires Survives(sofar, chunks)
    requires Actions(Frames(Tail(sofar) + Concat(chunks)), l.version, []).Success?
    ensures EffectsOfReads(e, Tail(sofar), chunks, l)
         == PerformedAll(e, Actions(Frames(Tail(sofar) + Concat(chunks)), l.version, []).value, l)
    decreases |chunks|
  {
    hide FrontOf, Decode, Performed, Tail, Frames, Actions, Stuck, Survives;
    var tail := Tail(sofar);
    var all := tail + Concat(chunks);
    if e.ended.Some? {
      EndedStays(e, Actions(Frames(all), l.version, []).value, tail, chunks, l);
    } else if chunks == [] {
      NoReads(sofar);
      NoActions(l.version);
    } else {
      var c := chunks[0];
      var here, later := Frames(tail + c), Frames(Tail(tail + c) + Concat(chunks[1..]));
      SurvivesStep(sofar, chunks);
      StuckResumes(sofar, c);
      FramesResume(sofar, c);
      FramesResume(tail + c, Concat(chunks[1..]));
      Associative(tail, c, Concat(chunks[1..]));
      ActionsAppend(here, later, l.version, []);
      var first := Actions(here, l.version, []).value;
      ActionsSoFar(later, l.version, first);
      PerformedAppend(e, first, Actions(later, l.version, []).value, l);
      ReadsPerform(ReadEffects(e, tail + c, l), sofar + c, chunks[1..], l);
    }
  }

  lemma NoActions(v: Version)
    ensures Actions([], v, []) == Success([])
  {
  }

  /** An undecodable frame among those of a read ends the loop before any of them has an effect. */
  lemma UndecodableEnds(e: Effects, data: seq<byte>, l: Link, j: nat)
    requires j < |Frames(data)| && Decode(Frames(data)[j], l.version).Failure?
    ensures ReadEffects(e, data, l) == e.(ended := Some(InvalidResponse))
  {
    hide Frames, Decode, PerformedAll;
    UndecodableFails(Frames(data), l.version, [], j);
  }

  lemma {:induction false} UndecodableFails(frames: seq<seq<byte>>, v: Version, sofar: seq<Action>, j: nat)
    requires j < |frames| && Decode(frames[j], v).Failure?
    ensures Actions(frames, v, sofar) == Failure(InvalidResponse)
    decreases |frames|
  {
    hide Decode, ActionOf;
    if j > 0 && Decode(frames[0], v).Success? {
      var one := if Decode(frames[0], v).value.Some? then ActionOf(Decode(frames[0], v).value.value) else [];
      assert sofar + [] == sofar;
      UndecodableFails(frames[1..], v, sofar + one, j - 1);
    }
  }

  /** What the two other fatal reads report: an empty one the end of the stream, an unreadable length nothing at all. */
  lemma FatalReadsAre(e: Effects, tail: seq<byte>, c: seq<byte>, later: seq<seq<byte>>, l: Link)
    requires e.ended.None?
    ensures c == [] ==> EffectsOfReads(e, tail, [c] + later, l) == e.(ended := Some(UnexpectedEof))
    ensures c != [] && Stuck(tail + c) && Actions(Frames(tail + c), l.version, []).Success? ==>
              EffectsOfReads(e, tail, [c] + later, l) == e.(ended := Some(DrainNeverEnds))
  {
    hide Stuck, Actions, Frames, Tail, PerformedAll;
    assert ([c] + later)[1..] == later;
    EndedStays(e.(ended := Some(DrainNeverEnds)), [], Tail(tail + c), later, l);
  }

  /** A run of reads that does not survive ends with an error of its own, unless the connection ended before. */
  lemma {:induction false} FatalReadEnds(e: Effects, sofar: seq<byte>, chunks: seq<seq<byte>>, l: Link)
    requires !Survives(sofar, chunks)
    ensures EffectsOfReads(e, Tail(sofar), chunks, l).ended.Some?
    decreases |chunks|
  {
    hide FrontOf, Decode, Performed, Tail, Frames, Actions, Stuck, Survives, PerformedAll;
    if e.ended.None? {
      if chunks == [] {
        NoReads(sofar);
      } else {
        var c, tail := chunks[0], Tail(sofar);
        SurvivesStep(sofar, chunks);
        StuckResumes(sofar, c);
        FramesResume(sofar, c);
        if c != [] {
          if Stuck(tail + c) {
            EndedStays(ReadEffects(e, tail + c, l), [], Tail(tail + c), chunks[1..], l);
          } else {
            FatalReadEnds(ReadEffects(e, tail + c, l), sofar + c, chunks[1..], l);
          }
        }
      }
    }
  }

  /**
   Packets sent to the client have exactly the effects of their actions, in order, if and only if no read is empty and
   none ends strictly inside a length field.
   */
  lemma PacketsPerform(e: Effects, ps: seq<Packet>, chunks: seq<seq<byte>>, l: Link)
    requires AllCarried(ps, l.version) && Concat(chunks) == Concat(Encodings(ps, l.version))
    requires e.ended.None? && forall p :: p in ps ==> !p.Disconnect?
    ensures EffectsOfReads(e, [], chunks, l) == PerformedAll(e, ActionsOf(ps), l)
       <==> CutsAreSafe(ps, l.version, chunks)
  {
    hide *;
    PerformUntilDisconnect(e, ps, chunks, l);
    EndOfParts(ps, [], l.version);
    UnfoldEndOf([], l.version);
    assert ps + [] == ps;
    SafeCutsAreSafe(ps, l.version, chunks, EndOf(ps, l.version));
  }

  lemma UnfoldReadEffects(e: Effects, data: seq<byte>, actions: seq<Action>, l: Link)
    requires Actions(Frames(data), l.version, []) == Success(actions) && !Stuck(data)
    ensures ReadEffects(e, data, l) == PerformedAll(e, actions, l)
  {
    hide Actions, Frames, Stuck, PerformedAll;
  }

  /** The position behind the first DISCONNECT, or past the end if there is none. */
  function EndOf(ps: seq<Packet>, v: Version): nat {
    if ps == [] then 1
    else if ps[0].Disconnect? then |Encoded(ps[0], v)|
    else |Encoded(ps[0], v)| + EndOf(ps[1..], v)
  }

  /**
   With a DISCONNECT among them, packets have exactly the effects of their actions up to it if and only if no read, up
   to the one that completes the first DISCONNECT, is empty or ends strictly inside a length field.
   */
  lemma PerformUntilDisconnect(e: Effects, ps: seq<Packet>, chunks: seq<seq<byte>>, l: Link)
    requires AllCarried(ps, l.version) && Concat(chunks) == Concat(Encodings(ps, l.version)) && e.ended.None?
    ensures EffectsOfReads(e, [], chunks, l) == PerformedAll(e, ActionsOf(ps), l)
       <==> SafeBefore(ps, l.version, 0, chunks, EndOf(ps, l.version))
  {
    hide *;
    EmptyHasNoFrames();
    assert [] + Concat(chunks) == Concat(chunks);
    PerformUntil(e, ps, ps, [], chunks, l);
  }

  /** The same from the middle of the stream: `sofar` is what came before, and `qs` the packets not yet received. */
  lemma {:induction false} PerformUntil(e: Effects, ps: seq<Packet>, qs: seq<Packet>, sofar: seq<byte>,
                                        chunks: seq<seq<byte>>, l: Link)
    requires AllCarried(ps, l.version) && sofar + Concat(chunks) == Concat(Encodings(ps, l.version))
    requires AllCarried(qs, l.version) && Tail(sofar) + Concat(chunks) == Concat(Encodings(qs, l.version))
    requires EndOf(ps, l.version) - |sofar| == EndOf(qs, l.version) - |Tail(sofar)| && e.ended.None?
    ensures EffectsOfReads(e, Tail(sofar), chunks, l) == PerformedAll(e, ActionsOf(qs), l)
       <==> SafeBefore(ps, l.version, |sofar|, chunks, EndOf(ps, l.version))
    decreases |chunks|
  {
    hide *;
    var v, tail, n := l.version, Tail(sofar), EndOf(ps, l.version);
    UnfoldReads(e, tail, chunks, l);
    TailIsCut(sofar);
    if chunks == [] {
      SafeWithout(ps, v, |sofar|, chunks, n);
      NoFramesNoBytes();
      assert tail + [] == tail;
      AllReceived(e, qs, tail, l);
    } else {
      var c, rest := chunks[0], Concat(chunks[1..]);
      ConcatFront(chunks);
      TailIsBeforeEnd(qs, v, tail, Concat(chunks));
      SafeBeforeStep(ps, v, |sofar|, chunks, n);
      Associative(sofar, c, rest);
      Associative(tail, c, rest);
      Halves(sofar + c, rest);
      Halves(tail + c, rest);
      PrefixIsStuckIff(ps, v, |sofar + c|);
      StuckResumes(sofar, c);
      OnlyDisconnects(e, ActionsOf(qs), l);
      var data := tail + c;
      var k := FramesOfPrefix(qs, v, |data|);
      var here, later := qs[..k], qs[k..];
      assert qs == here + later;
      AllCarriedHalves(here, later, v);
      ActionsOfEncodings(here, v, []);
      assert [] + ActionsOf(here) == ActionsOf(here);
      UnfoldStuck(e, data, ActionsOf(here), l);
      if c != [] && !Stuck(data) {
        UnfoldReadEffects(e, data, ActionsOf(here), l);
        var f := PerformedAll(e, ActionsOf(here), l);
        ActionsOfAppend(here, later);
        PerformedAppend(e, ActionsOf(here), ActionsOf(later), l);
        EncodedTogether(here, later, v);
        EndOfParts(here, later, v);
        EndsIffDisconnect(e, here, l);
        FramesResume(sofar, c);
        if f.ended.Some? {
          EndedStays(f, ActionsOf(later), Tail(data), chunks[1..], l);
          SafeWithout(ps, v, |sofar + c|, chunks[1..], n);
        } else {
          PerformUntil(f, ps, later, sofar + c, chunks[1..], l);
        }
      } else if c != [] {
        EndedStays(ReadEffects(e, data, l), [], Tail(data), chunks[1..], l);
      }
    }
  }

  lemma UnfoldReads(e: Effects, tail: seq<byte>, chunks: seq<seq<byte>>, l: Link)
    requires e.ended.None?
    ensures EffectsOfReads(e, tail, chunks, l)
         == if chunks == [] then e
            else if chunks[0] == [] then e.(ended := Some(UnexpectedEof))
            else EffectsOfReads(ReadEffects(e, tail + chunks[0], l), Tail(tail + chunks[0]), chunks[1..], l)
  {
    hide ReadEffects, Tail;
  }

  lemma UnfoldStuck(e: Effects, data: seq<byte>, actions: seq<Action>, l: Link)
    requires Actions(Frames(data), l.version, []) == Success(actions)
    ensures Stuck(data) ==> ReadEffects(e, data, l) == e.(ended := Some(DrainNeverEnds))
  {
    hide Actions, Frames, Stuck, PerformedAll;
  }

  lemma TailIsCut(s: seq<byte>)
    ensures Frames(Tail(s)) == [] && Tail(Tail(s)) == Tail(s)
  {
    hide FrontOf;
    FramesEnd(Tail(s));
  }

  /** When all bytes have come and no frame is left, all packets have been received. */
  lemma AllReceived(e: Effects, qs: seq<Packet>, tail: seq<byte>, l: Link)
    requires AllCarried(qs, l.version) && tail == Concat(Encodings(qs, l.version)) && Frames(tail) == []
    ensures PerformedAll(e, ActionsOf(qs), l) == e
  {
    hide *;
    FramesOfEncodings(qs, l.version, []);
    EmptyHasNoFrames();
    assert tail + [] == tail && Encodings(qs, l.version) + [] == Encodings(qs, l.version);
    NoEncodingsNoPackets(qs, l.version);
    NothingToDo(e, l);
  }

  lemma NoEncodingsNoPackets(qs: seq<Packet>, v: Version)
    ensures Encodings(qs, v) == [] ==> qs == []
  {
  }

  lemma NothingToDo(e: Effects, l: Link)
    ensures ActionsOf([]) == [] && PerformedAll(e, [], l) == e
  {
  }

  /** What is left over is less than a frame. */
  lemma TailIsBeforeEnd(qs: seq<Packet>, v: Version, tail: seq<byte>, rest: seq<byte>)
    requires AllCarried(qs, v) && tail + rest == Concat(Encodings(qs, v)) && Frames(tail) == []
    ensures |tail| < EndOf(qs, v)
  {
    hide *;
    UnfoldEndOf(qs, v);
    NoEncodings(qs, v);
    if qs != [] {
      var front, later := Encoded(qs[0], v), Concat(Encodings(qs[1..], v));
      EncodingsCons(qs, v);
      AllCarriedCons(qs, v);
      if |tail| >= |front| {
        FrameInFront(qs[0], v, later, tail, rest);
      }
    }
  }

  lemma FrameInFront(p: Packet, v: Version, later: seq<byte>, tail: seq<byte>, rest: seq<byte>)
    requires Sendable(p, v) && tail + rest == Encoded(p, v) + later && |tail| >= |Encoded(p, v)|
    ensures Frames(tail) != []
  {
    hide *;
    var front, b := Encoded(p, v), |tail|;
    assert |tail + rest| == |front + later|;
    CutBehind(front, later, b);
    Halves(tail, rest);
    var more := later[..b - |front|];
    assert tail == front + more;
    PacketUnfolds(p, v, more);
  }

  lemma UnfoldEndOf(qs: seq<Packet>, v: Version)
    ensures EndOf(qs, v) == if qs == [] then 1
                            else |Encoded(qs[0], v)| + if qs[0].Disconnect? then 0 else EndOf(qs[1..], v)
    ensures EndOf(qs, v) > 0
  {
    hide Encoded;
    if qs != [] {
      EncodedIsNotEmpty(qs[0], v);
    }
  }

  /** Actions end a connection by a DISCONNECT only. */
  lemma {:induction false} OnlyDisconnects(e: Effects, actions: seq<Action>, l: Link)
    requires e.ended.None?
    ensures PerformedAll(e, actions, l).ended in {None, Some(NotConnected)}
    decreases |actions|
  {
    hide Acknowledgement, Delivery, T.Cleared;
    if actions != [] {
      var f := Performed(e, actions[0], l);
      if f.ended.None? {
        OnlyDisconnects(f, actions[1..], l);
      }
    }
  }

  lemma {:induction false} EndsIffDisconnect(e: Effects, ps: seq<Packet>, l: Link)
    requires e.ended.None?
    ensures PerformedAll(e, ActionsOf(ps), l).ended.Some? <==> exists p :: p in ps && p.Disconnect?
    decreases |ps|
  {
    hide Performed, PerformedAll, ActionOf;
    if ps == [] {
      NothingPerformed(e, l);
    } else {
      var f := PerformedAll(e, ActionOf(ps[0]), l);
      OnePacketAcks(e, ps[0], l);
      PerformedAppend(e, ActionOf(ps[0]), ActionsOf(ps[1..]), l);
      assert ps == [ps[0]] + ps[1..];
      if f.ended.Some? {
        EndedStays(f, ActionsOf(ps[1..]), [], [], l);
      } else {
        EndsIffDisconnect(f, ps[1..], l);
      }
    }
  }

  lemma {:induction false} EndOfParts(here: seq<Packet>, later: seq<Packet>, v: Version)
    ensures if exists p :: p in here && p.Disconnect? then EndOf(here + later, v) <= |Concat(Encodings(here, v))|
            else EndOf(here + later, v) == |Concat(Encodings(here, v))| + EndOf(later, v)
    decreases |here|
  {
    hide *;
    UnfoldEndOf(here + later, v);
    NoEncodings(here, v);
    if here == [] {
      assert here + later == later;
    } else {
      assert (here + later)[0] == here[0] && (here + later)[1..] == here[1..] + later;
      EncodingsCons(here, v);
      assert here == [here[0]] + here[1..];
      EndOfParts(here[1..], later, v);
    }
  }

  // ---- What the broker and the router get ----

  /** The acknowledgement a received packet calls for. */
  function AcksTo(p: Packet): seq<Packet> {
    match p
    case Publish(_, AtLeastOnce, _, _, Some(id), _, _) => [PubAck(Bare(id))]
    case _ => []
  }

  function AllAcks(ps: seq<Packet>): seq<Packet> {
    if ps == [] then [] else AcksTo(ps[0]) + AllAcks(ps[1..])
  }

  /** Every message, in order, with the subscribers registered for it when its turn comes. */
  function DeliveriesOf(ps: seq<Packet>, regs: seq<T.Reg>, l: Link): seq<Dispatched>
    decreases |ps|
  {
    if ps == [] then []
    else
      match ps[0]
      case Publish(dup, qos, retain, topic, id, payload, _) =>
        [Delivery(PublishMessage(topic, payload, qos, retain, dup, id), regs, l)]
        + DeliveriesOf(ps[1..], T.Cleared(regs, Levels(topic), l.closed), l)
      case _ => DeliveriesOf(ps[1..], regs, l)
  }

  /** The registrations after one packet. */
  function RegsAfter(p: Packet, regs: seq<T.Reg>, l: Link): seq<T.Reg> {
    if p.Publish? then T.Cleared(regs, Levels(p.topic), l.closed) else regs
  }

  lemma OnePacketPerforms(e: Effects, p: Packet, l: Link)
    requires e.ended.None? && !p.Disconnect?
    ensures var f := PerformedAll(e, ActionOf(p), l);
            && f.ended.None?
            && (l.capacity >= 7 ==> f.wire == e.wire + Concat(Encodings(AcksTo(p), l.version)))
            && f.dispatched == e.dispatched + DeliveriesOf([p], e.regs, l)
            && f.regs == RegsAfter(p, e.regs, l)
  {
    NothingPerformed(e, l);
    hide Fits, Encoded, Bare, Concat, Encodings, T.Cleared, T.Targets, Delivery;
    if p.Publish? && p.packetId.Some? && l.capacity >= 7 {
      AcksFit(p.packetId.value, l.version, l.capacity);
      OneEncoding(PubAck(Bare(p.packetId.value)), l.version);
    }
    assert [p][1..] == [];
    if ActionOf(p) != [] {
      OneAction(e, ActionOf(p)[0], l);
      assert ActionOf(p) == [ActionOf(p)[0]];
    }
  }

  lemma OneAction(e: Effects, a: Action, l: Link)
    requires e.ended.None?
    ensures PerformedAll(e, [a], l) == Performed(e, a, l)
  {
    hide Performed;
    assert [a][1..] == [];
  }

  /**
   Every QoS 1 message is acknowledged once under its own identifier, and every message is sent once to each live
   subscriber registered for it, in order.
   */
  lemma {:induction false} ReceivedAreAcknowledged(e: Effects, ps: seq<Packet>, l: Link)
    requires l.capacity >= 7 && e.ended.None? && forall p :: p in ps ==> !p.Disconnect?
    ensures var f := PerformedAll(e, ActionsOf(ps), l);
            && f.wire == e.wire + Concat(Encodings(AllAcks(ps), l.version))
            && f.dispatched == e.dispatched + DeliveriesOf(ps, e.regs, l)
    decreases |ps|
  {
    hide Performed, PerformedAll, ActionOf, AcksTo, Concat, Encodings, Delivery;
    var v := l.version;
    if ps == [] {
      NothingPerformed(e, l);
    } else {
      var f := PerformedAll(e, ActionOf(ps[0]), l);
      OnePacketPerforms(e, ps[0], l);
      PerformedAppend(e, ActionOf(ps[0]), ActionsOf(ps[1..]), l);
      ReceivedAreAcknowledged(f, ps[1..], l);
      EncodingsAppend(AcksTo(ps[0]), AllAcks(ps[1..]), v);
      ConcatAppend(Encodings(AcksTo(ps[0]), v), Encodings(AllAcks(ps[1..]), v));
      Associative(e.wire, Concat(Encodings(AcksTo(ps[0]), v)), Concat(Encodings(AllAcks(ps[1..]), v)));
      DeliveriesStep(ps, e.regs, l);
      Associative(e.dispatched, DeliveriesOf([ps[0]], e.regs, l), DeliveriesOf(ps[1..], f.regs, l));
    }
  }

  /** The acknowledgement on the wire: four bytes, for QoS 1 only, and none when the buffer is too small for it. */
  lemma AcknowledgementIs(m: PublishMessage, l: Link)
    ensures Acknowledgement(m, l)
         == if m.qos == AtLeastOnce && m.packetId.Some? && l.capacity >= 7
            then [0x40, 0x02, m.packetId.value / 256, m.packetId.value % 256] else []
  {
    if m.packetId.Some? {
      var id := m.packetId.value;
      W.ShortAcks(id, l.version);
      BareFits(id, l.version, l.capacity);
      hide Encoded, Fits;
    }
  }

  lemma BareFits(id: u16, v: Version, capacity: nat)
    ensures Fits(PubAck(Bare(id)), v, capacity) <==> capacity >= 7
  {
    if capacity >= 7 {
      AcksFit(id, v, capacity);
    }
    assert |AckBytes(Bare(id), v)| >= 2;
  }

  function Publishes(ps: seq<Packet>): (r: seq<Packet>)
    ensures forall p :: p in r ==> p.Publish?
  {
    if ps == [] then [] else (if ps[0].Publish? then [ps[0]] else []) + Publishes(ps[1..])
  }

  predicate SameMessage(m: PublishMessage, p: Packet) {
    p.Publish? && m.topic == p.topic && m.payload == p.payload && m.qos == p.qos && m.retain == p.retain
    && m.dup == p.dup && m.packetId == p.packetId
  }

  /** One message is handed on for every PUBLISH, in order, with all its fields as they came. */
  lemma {:induction false} DeliveredAsReceived(ps: seq<Packet>, regs: seq<T.Reg>, l: Link)
    ensures var d, q := DeliveriesOf(ps, regs, l), Publishes(ps);
            |d| == |q| && forall i :: 0 <= i < |d| ==> SameMessage(d[i].0, q[i])
    decreases |ps|
  {
    hide Delivery, T.Cleared, SameMessage;
    if ps != [] {
      DeliveredAsReceived(ps[1..], RegsAfter(ps[0], regs, l), l);
      if ps[0].Publish? {
        OneDelivered(ps, regs, l);
      }
    }
  }

  lemma OneDelivered(ps: seq<Packet>, regs: seq<T.Reg>, l: Link)
    requires ps != [] && ps[0].Publish?
    ensures var d := DeliveriesOf(ps, regs, l);
            && |d| > 0 && SameMessage(d[0].0, ps[0]) && d[1..] == DeliveriesOf(ps[1..], RegsAfter(ps[0], regs, l), l)
  {
    hide T.Cleared, T.Targets, Levels;
  }

  /** While every receiver is there, a message goes to the senders of all registrations that match its topic. */
  lemma {:induction false} DeliveredToAll(ps: seq<Packet>, regs: seq<T.Reg>, l: Link, i: nat, topic: string)
    requires l.closed == {} && i < |DeliveriesOf(ps, regs, l)|
    requires var t := DeliveriesOf(ps, regs, l)[i].0.topic;
             |topic| == |t| && forall j :: 0 <= j < |t| ==> topic[j] == t[j] as char
    ensures DeliveriesOf(ps, regs, l)[i].1 == multiset(T.Targets(regs, Topics.Split(topic), {}))
    decreases |ps|
  {
    hide T.Targets, T.Cleared, Topics.Split;
    if ps[0].Publish? {
      assert topic == Chars(DeliveriesOf(ps, regs, l)[i].0.topic);
      T.NothingCleared(regs, Levels(ps[0].topic));
      if i > 0 {
        DeliveredToAll(ps[1..], regs, l, i - 1, topic);
      }
    } else {
      DeliveredToAll(ps[1..], regs, l, i, topic);
    }
  }

  lemma DeliveriesStep(ps: seq<Packet>, regs: seq<T.Reg>, l: Link)
    requires ps != []
    ensures DeliveriesOf(ps, regs, l)
         == DeliveriesOf([ps[0]], regs, l) + DeliveriesOf(ps[1..], RegsAfter(ps[0], regs, l), l)
  {
    hide Delivery, T.Cleared;
    assert [ps[0]][1..] == [];
  }

  lemma NothingPerformed(e: Effects, l: Link)
    ensures PerformedAll(e, [], l) == e
    ensures e.wire + Concat(Encodings([], l.version)) == e.wire && e.dispatched + [] == e.dispatched
  {
    assert e.wire + [] == e.wire;
  }

  // ---- Leaving the in-flight map ----

  /** A PUBACK for `id` comes before any DISCONNECT. */
  predicate Acked(ps: seq<Packet>, id: u16) {
    ps != [] && !ps[0].Disconnect? && ((ps[0].PubAck? && ps[0].ack.packetId == id) || Acked(ps[1..], id))
  }

  /** A message leaves the in-flight map exactly by a PUBACK, whatever its QoS, and otherwise stays as it is. */
  lemma {:induction false} EntryLeavesIff(e: Effects, ps: seq<Packet>, id: u16, l: Link)
    requires e.ended.None? && id in e.book.inflight
    ensures var f := PerformedAll(e, ActionsOf(ps), l);
            && (id !in f.book.inflight <==> Acked(ps, id))
            && (id in f.book.inflight ==> f.book.inflight[id] == e.book.inflight[id])
    decreases |ps|
  {
    hide Performed, PerformedAll, ActionOf;
    if ps == [] {
      NothingPerformed(e, l);
    } else {
      var f := PerformedAll(e, ActionOf(ps[0]), l);
      OnePacketAcks(e, ps[0], l);
      PerformedAppend(e, ActionOf(ps[0]), ActionsOf(ps[1..]), l);
      if ps[0].Disconnect? {
        EndedStays(f, ActionsOf(ps[1..]), [], [], l);
      } else if id in f.book.inflight {
        EntryLeavesIff(f, ps[1..], id, l);
      } else {
        GoneStaysGone(f, ActionsOf(ps[1..]), id, l);
      }
    }
  }

  lemma OnePacketAcks(e: Effects, p: Packet, l: Link)
    requires e.ended.None?
    ensures var f := PerformedAll(e, ActionOf(p), l);
            && (f.ended.Some? <==> p.Disconnect?)
            && f.book == if p.PubAck? then S.Acknowledge(e.book, p.ack.packetId) else e.book
  {
    hide Acknowledgement, Delivery, T.Cleared;
    NothingPerformed(e, l);
    if ActionOf(p) != [] {
      OneAction(e, ActionOf(p)[0], l);
      assert ActionOf(p) == [ActionOf(p)[0]];
    }
  }

  lemma {:induction false} GoneStaysGone(e: Effects, actions: seq<Action>, id: u16, l: Link)
    requires id !in e.book.inflight
    ensures id !in PerformedAll(e, actions, l).book.inflight
    decreases |actions|
  {
    hide Acknowledgement, Delivery, T.Cleared;
    if actions != [] && e.ended.None? {
      GoneStaysGone(Performed(e, actions[0], l), actions[1..], id, l);
    }
  }

  /**
   A QoS 2 message never completes: the broker answers it with PUBREC and PUBCOMP and never with PUBACK, and whatever
   else comes with them, the message stays in flight as it is.
   */
  lemma QoS2NeverCompletes(e: Effects, ps: seq<Packet>, id: u16, l: Link)
    requires e.ended.None? && id in e.book.inflight
    requires forall p :: p in ps && p.PubAck? ==> p.ack.packetId != id
    ensures var f := PerformedAll(e, ActionsOf(ps), l);
            id in f.book.inflight && f.book.inflight[id] == e.book.inflight[id]
  {
    hide PerformedAll, ActionsOf;
    EntryLeavesIff(e, ps, id, l);
    NotAcked(ps, id);
  }

  lemma {:induction false} NotAcked(ps: seq<Packet>, id: u16)
    requires forall p :: p in ps && p.PubAck? ==> p.ack.packetId != id
    ensures !Acked(ps, id)
    decreases |ps|
  {
    if ps != [] {
      assert ps[0] in ps;
      NotAcked(ps[1..], id);
    }
  }

  // ---- Waiting callers ----

  /** A SUBACK for `id` comes before any DISCONNECT. */
  predicate SubAcked(ps: seq<Packet>, id: u16) {
    ps != [] && !ps[0].Disconnect? && ((ps[0].SubAck? && ps[0].ackedId == id) || SubAcked(ps[1..], id))
  }

  /** An UNSUBACK for `id` comes before any DISCONNECT. */
  predicate UnsubAcked(ps: seq<Packet>, id: u16) {
    ps != [] && !ps[0].Disconnect? && ((ps[0].UnsubAck? && ps[0].ackedId == id) || UnsubAcked(ps[1..], id))
  }

  /** The caller a packet answers: an acknowledgement answers whoever waits under its identifier and for its kind. */
  function AnsweredBy(p: Packet, inflight: map<u16, Pending>, subscribes: map<u16, Reply>,
                      unsubscribes: map<u16, Reply>)
    : seq<Reply>
  {
    if p.PubAck? && p.ack.packetId in inflight && inflight[p.ack.packetId].1.Some? then
      [inflight[p.ack.packetId].1.value]
    else if p.SubAck? && p.ackedId in subscribes then [subscribes[p.ackedId]]
    else if p.UnsubAck? && p.ackedId in unsubscribes then [unsubscribes[p.ackedId]]
    else []
  }

  /** The callers packets answer, in order, up to a DISCONNECT; who has been answered waits no longer. */
  function AllAnswered(ps: seq<Packet>, inflight: map<u16, Pending>, subscribes: map<u16, Reply>,
                       unsubscribes: map<u16, Reply>): seq<Reply>
    decreases |ps|
  {
    if ps == [] || ps[0].Disconnect? then []
    else
      AnsweredBy(ps[0], inflight, subscribes, unsubscribes)
      + AllAnswered(ps[1..], if ps[0].PubAck? then inflight - {ps[0].ack.packetId} else inflight,
                    if ps[0].SubAck? then subscribes - {ps[0].ackedId} else subscribes,
                    if ps[0].UnsubAck? then unsubscribes - {ps[0].ackedId} else unsubscribes)
  }

  lemma OnePacketAnswers(e: Effects, p: Packet, l: Link)
    requires e.ended.None?
    ensures var f := PerformedAll(e, ActionOf(p), l);
            && (f.ended.Some? <==> p.Disconnect?)
            && f.book.inflight == (if p.PubAck? then e.book.inflight - {p.ack.packetId} else e.book.inflight)
            && f.subscribes == (if p.SubAck? then e.subscribes - {p.ackedId} else e.subscribes)
            && f.unsubscribes == (if p.UnsubAck? then e.unsubscribes - {p.ackedId} else e.unsubscribes)
            && f.told == e.told + AnsweredBy(p, e.book.inflight, e.subscribes, e.unsubscribes)
  {
    hide Acknowledgement, Delivery, T.Cleared;
    NothingPerformed(e, l);
    assert e.told + [] == e.told;
    if ActionOf(p) != [] {
      OneAction(e, ActionOf(p)[0], l);
      assert ActionOf(p) == [ActionOf(p)[0]];
    }
  }

  /** Whoever waits for a SUBACK waits until the one of his identifier, whatever else comes. */
  lemma {:induction false} SubscriberLeavesIff(e: Effects, ps: seq<Packet>, id: u16, l: Link)
    requires e.ended.None?
    ensures var f := PerformedAll(e, ActionsOf(ps), l);
            && (id in f.subscribes <==> id in e.subscribes && !SubAcked(ps, id))
            && (id in f.subscribes ==> f.subscribes[id] == e.subscribes[id])
    decreases |ps|
  {
    hide Performed, PerformedAll, ActionOf, AnsweredBy;
    if ps == [] {
      NothingPerformed(e, l);
    } else {
      var f := PerformedAll(e, ActionOf(ps[0]), l);
      OnePacketAnswers(e, ps[0], l);
      PerformedAppend(e, ActionOf(ps[0]), ActionsOf(ps[1..]), l);
      if ps[0].Disconnect? {
        EndedStays(f, ActionsOf(ps[1..]), [], [], l);
      } else {
        SubscriberLeavesIff(f, ps[1..], id, l);
      }
    }
  }

  lemma {:induction false} UnsubscriberLeavesIff(e: Effects, ps: seq<Packet>, id: u16, l: Link)
    requires e.ended.None?
    ensures var f := PerformedAll(e, ActionsOf(ps), l);
            && (id in f.unsubscribes <==> id in e.unsubscribes && !UnsubAcked(ps, id))
            && (id in f.unsubscribes ==> f.unsubscribes[id] == e.unsubscribes[id])
    decreases |ps|
  {
    hide Performed, PerformedAll, ActionOf, AnsweredBy;
    if ps == [] {
      NothingPerformed(e, l);
    } else {
      var f := PerformedAll(e, ActionOf(ps[0]), l);
      OnePacketAnswers(e, ps[0], l);
      PerformedAppend(e, ActionOf(ps[0]), ActionsOf(ps[1..]), l);
      if ps[0].Disconnect? {
        EndedStays(f, ActionsOf(ps[1..]), [], [], l);
      } else {
        UnsubscriberLeavesIff(f, ps[1..], id, l);
      }
    }
  }

  /** The callers told are those of the acknowledgements, each once and in order. */
  lemma {:induction false} CallersAreTold(e: Effects, ps: seq<Packet>, l: Link)
    requires e.ended.None?
    ensures PerformedAll(e, ActionsOf(ps), l).told
         == e.told + AllAnswered(ps, e.book.inflight, e.subscribes, e.unsubscribes)
    decreases |ps|
  {
    hide Performed, PerformedAll, ActionOf, AnsweredBy;
    if ps == [] {
      NothingPerformed(e, l);
      assert e.told + [] == e.told;
    } else {
      var f := PerformedAll(e, ActionOf(ps[0]), l);
      OnePacketAnswers(e, ps[0], l);
      PerformedAppend(e, ActionOf(ps[0]), ActionsOf(ps[1..]), l);
      if ps[0].Disconnect? {
        EndedStays(f, ActionsOf(ps[1..]), [], [], l);
        NobodyAnswered(ps[0], e);
        assert e.told + [] == e.told;
      } else {
        CallersAreTold(f, ps[1..], l);
        Associative(e.told, AnsweredBy(ps[0], e.book.inflight, e.subscribes, e.unsubscribes),
                    AllAnswered(ps[1..], f.book.inflight, f.subscribes, f.unsubscribes));
      }
    }
  }

  lemma NobodyAnswered(p: Packet, e: Effects)
    requires p.Disconnect?
    ensures AnsweredBy(p, e.book.inflight, e.subscribes, e.unsubscribes) == []
  {
  }

  ghost predicate PublisherAnswered(ps: seq<Packet>, inflight: map<u16, Pending>, r: Reply) {
    exists id :: id in inflight && inflight[id].1 == Some(r) && Acked(ps, id)
  }

  ghost predicate SubscriberAnswered(ps: seq<Packet>, subscribes: map<u16, Reply>, r: Reply) {
    exists id :: id in subscribes && subscribes[id] == r && SubAcked(ps, id)
  }

  ghost predicate UnsubscriberAnswered(ps: seq<Packet>, unsubscribes: map<u16, Reply>, r: Reply) {
    exists id :: id in unsubscribes && unsubscribes[id] == r && UnsubAcked(ps, id)
  }

  /** A caller is told if and only if he waits under an identifier that is acknowledged, by the packet of his kind. */
  lemma {:induction false} ToldIff(ps: seq<Packet>, inflight: map<u16, Pending>, subscribes: map<u16, Reply>,
                                   unsubscribes: map<u16, Reply>, r: Reply)
    ensures r in AllAnswered(ps, inflight, subscribes, unsubscribes)
       <==> PublisherAnswered(ps, inflight, r) || SubscriberAnswered(ps, subscribes, r)
            || UnsubscriberAnswered(ps, unsubscribes, r)
    decreases |ps|
  {
    if ps != [] && !ps[0].Disconnect? {
      var p := ps[0];
      var inflight' := if p.PubAck? then inflight - {p.ack.packetId} else inflight;
      var subscribes' := if p.SubAck? then subscribes - {p.ackedId} else subscribes;
      var unsubscribes' := if p.UnsubAck? then unsubscribes - {p.ackedId} else unsubscribes;
      ToldIff(ps[1..], inflight', subscribes', unsubscribes', r);
      var first, later := AnsweredBy(p, inflight, subscribes, unsubscribes),
                          AllAnswered(ps[1..], inflight', subscribes', unsubscribes');
      assert AllAnswered(ps, inflight, subscribes, unsubscribes) == first + later;
      assert r in first + later <==> r in first || r in later;
      AnsweredIff(p, inflight, subscribes, unsubscribes, r);
      PublisherStep(ps, inflight, r);
      SubscriberStep(ps, subscribes, r);
      UnsubscriberStep(ps, unsubscribes, r);
      hide PublisherAnswered, SubscriberAnswered, UnsubscriberAnswered, AllAnswered, AnsweredBy;
    }
  }

  lemma PublisherStep(ps: seq<Packet>, inflight: map<u16, Pending>, r: Reply)
    requires ps != [] && !ps[0].Disconnect?
    ensures var p := ps[0];
            PublisherAnswered(ps, inflight, r)
            <==> (p.PubAck? && p.ack.packetId in inflight && inflight[p.ack.packetId].1 == Some(r))
                 || PublisherAnswered(ps[1..], if p.PubAck? then inflight - {p.ack.packetId} else inflight, r)
  {
    var p := ps[0];
    var later := if p.PubAck? then inflight - {p.ack.packetId} else inflight;
    if PublisherAnswered(ps, inflight, r) {
      var id :| id in inflight && inflight[id].1 == Some(r) && Acked(ps, id);
      assert (p.PubAck? && p.ack.packetId == id) || (id in later && Acked(ps[1..], id));
    }
    if PublisherAnswered(ps[1..], later, r) {
      var id :| id in later && later[id].1 == Some(r) && Acked(ps[1..], id);
      assert Acked(ps, id);
    }
    if p.PubAck? && p.ack.packetId in inflight && inflight[p.ack.packetId].1 == Some(r) {
      assert Acked(ps, p.ack.packetId);
    }
  }

  lemma SubscriberStep(ps: seq<Packet>, subscribes: map<u16, Reply>, r: Reply)
    requires ps != [] && !ps[0].Disconnect?
    ensures var p := ps[0];
            SubscriberAnswered(ps, subscribes, r)
            <==> (p.SubAck? && p.ackedId in subscribes && subscribes[p.ackedId] == r)
                 || SubscriberAnswered(ps[1..], if p.SubAck? then subscribes - {p.ackedId} else subscribes, r)
  {
    var p := ps[0];
    var later := if p.SubAck? then subscribes - {p.ackedId} else subscribes;
    if SubscriberAnswered(ps, subscribes, r) {
      var id :| id in subscribes && subscribes[id] == r && SubAcked(ps, id);
      assert (p.SubAck? && p.ackedId == id) || (id in later && SubAcked(ps[1..], id));
    }
    if SubscriberAnswered(ps[1..], later, r) {
      var id :| id in later && later[id] == r && SubAcked(ps[1..], id);
      assert SubAcked(ps, id);
    }
    if p.SubAck? && p.ackedId in subscribes && subscribes[p.ackedId] == r {
      assert SubAcked(ps, p.ackedId);
    }
  }

  lemma UnsubscriberStep(ps: seq<Packet>, unsubscribes: map<u16, Reply>, r: Reply)
    requires ps != [] && !ps[0].Disconnect?
    ensures var p := ps[0];
            UnsubscriberAnswered(ps, unsubscribes, r)
            <==> (p.UnsubAck? && p.ackedId in unsubscribes && unsubscribes[p.ackedId] == r)
                 || UnsubscriberAnswered(ps[1..], if p.UnsubAck? then unsubscribes - {p.ackedId} else unsubscribes, r)
  {
    var p := ps[0];
    var later := if p.UnsubAck? then unsubscribes - {p.ackedId} else unsubscribes;
    if UnsubscriberAnswered(ps, unsubscribes, r) {
      var id :| id in unsubscribes && unsubscribes[id] == r && UnsubAcked(ps, id);
      assert (p.UnsubAck? && p.ackedId == id) || (id in later && UnsubAcked(ps[1..], id));
    }
    if UnsubscriberAnswered(ps[1..], later, r) {
      var id :| id in later && later[id] == r && UnsubAcked(ps[1..], id);
      assert UnsubAcked(ps, id);
    }
    if p.UnsubAck? && p.ackedId in unsubscribes && unsubscribes[p.ackedId] == r {
      assert UnsubAcked(ps, p.ackedId);
    }
  }

  lemma AnsweredIff(p: Packet, inflight: map<u16, Pending>, subscribes: map<u16, Reply>,
                    unsubscribes: map<u16, Reply>, r: Reply)
    ensures r in AnsweredBy(p, inflight, subscribes, unsubscribes)
       <==> || (p.PubAck? && p.ack.packetId in inflight && inflight[p.ack.packetId].1 == Some(r))
            || (p.SubAck? && p.ackedId in subscribes && subscribes[p.ackedId] == r)
            || (p.UnsubAck? && p.ackedId in unsubscribes && unsubscribes[p.ackedId] == r)
  {
  }
}
