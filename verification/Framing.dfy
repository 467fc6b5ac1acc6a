/**
 Cutting a byte stream into frames: `RawPacketFrameIter` (crates/mqtt-packet/src/codec.rs) and the receive
 loop of the event loop (crates/mqtt-tokio/src/eventloop.rs).
 */
module Framing {
  import opened Wrappers
  import opened Bytes
  import opened PacketErrors
  import opened Packets
  import opened Decoder
  import opened RoundTrip
  import opened Totality
  import VarInt

  /** What stands at the front of the input: a whole frame, part of one, or an unreadable length. */
  datatype Front = Whole(size: nat) | Partial | Unreadable(error: PacketError)

  function FrontOf(s: seq<byte>): (f: Front)
    ensures f.Whole? ==> 2 <= f.size <= |s|
  {
    if |s| < 2 then Partial
    else
      match VarInt.Read(s[1..])
      case Failure(e) => Unreadable(e)
      case Success((len, n)) => if |s| < 1 + n + len then Partial else Whole(1 + n + len)
  }

  /** The whole frames at the front, and what is left behind them. */
  function Frames(s: seq<byte>): (frames: seq<seq<byte>>) {
    if FrontOf(s).Whole? then [s[..FrontOf(s).size]] + Frames(s[FrontOf(s).size..]) else []
  }

  function Tail(s: seq<byte>): (t: seq<byte>)
    ensures !FrontOf(t).Whole? && |t| <= |s|
  {
    if FrontOf(s).Whole? then Tail(s[FrontOf(s).size..]) else s
  }

  /** The iterator reports the same error for ever. */
  predicate Stuck(s: seq<byte>) {
    FrontOf(Tail(s)).Unreadable?
  }

  // ---- The iterator ----

  type Item = Option<Result<seq<byte>, PacketError>>

  function ItemAt(buffer: seq<byte>, offset: nat): Item
    requires offset <= |buffer|
  {
    match FrontOf(buffer[offset..])
    case Whole(n) => Some(Success(buffer[offset..offset + n]))
    case Partial => None
    case Unreadable(e) => Some(Failure(e))
  }

  function OffsetAfter(buffer: seq<byte>, offset: nat): (next: nat)
    requires offset <= |buffer|
    ensures offset <= next <= |buffer|
  {
    match FrontOf(buffer[offset..])
    case Whole(n) => offset + n
    case _ => offset
  }

  class FrameIter {
    const buffer: seq<byte>
    var offset: nat

    ghost predicate Valid()
      reads this
    {
      offset <= |buffer|
    }

    constructor (buffer: seq<byte>)
      ensures Valid() && this.buffer == buffer && offset == 0
    {
      this.buffer := buffer;
      offset := 0;
    }

    /** `Iterator::next`. */
    method Next() returns (item: Item)
      requires Valid()
      modifies this`offset
      ensures Valid()
      ensures item == ItemAt(buffer, old(offset)) && offset == OffsetAfter(buffer, old(offset))
    {
      if offset >= |buffer| {
        return None;
      }
      var slice := buffer[offset..];
      if |slice| < 2 {
        return None;
      }
      var peeked := VarInt.PeekVariableByteInteger(slice[1..]);
      match peeked {
        case Success((remainingLen, lenBytes)) =>
          var total := 1 + lenBytes + remainingLen;
          if |slice| < total {
            return None;
          }
          assert slice[..total] == buffer[offset..offset + total];
          offset := offset + total;
          return Some(Success(slice[..total]));
        case Failure(e) =>
          return Some(Failure(e));
      }
    }
  }

  /** The iterator's offset after `k` calls. */
  function OffsetAfterCalls(buffer: seq<byte>, k: nat): (offset: nat)
    ensures offset <= |buffer|
  {
    if k == 0 then 0 else OffsetAfter(buffer, OffsetAfterCalls(buffer, k - 1))
  }

  /** Once at the tail, the iterator stays there. */
  lemma {:induction false} CallsReachTail(buffer: seq<byte>, k: nat)
    ensures Tail(buffer[OffsetAfterCalls(buffer, k)..]) == Tail(buffer)
    ensures k >= |buffer| ==> buffer[OffsetAfterCalls(buffer, k)..] == Tail(buffer)
    ensures OffsetAfterCalls(buffer, k) >= k || buffer[OffsetAfterCalls(buffer, k)..] == Tail(buffer)
  {
    hide *;
    CallOffset(buffer, k);
    if k == 0 {
      assert buffer[0..] == buffer;
    } else {
      CallsReachTail(buffer, k - 1);
      CallMoves(buffer, OffsetAfterCalls(buffer, k - 1));
      TailIsShort(buffer);
    }
  }

  lemma CallOffset(buffer: seq<byte>, k: nat)
    ensures OffsetAfterCalls(buffer, k) <= |buffer|
    ensures k == 0 ==> OffsetAfterCalls(buffer, k) == 0
    ensures k > 0 ==> OffsetAfterCalls(buffer, k) == OffsetAfter(buffer, OffsetAfterCalls(buffer, k - 1))
  {
  }

  lemma CallMoves(buffer: seq<byte>, before: nat)
    requires before <= |buffer|
    ensures var after := OffsetAfter(buffer, before);
            && before <= after <= |buffer| && Tail(buffer[after..]) == Tail(buffer[before..])
            && (after > before || buffer[after..] == Tail(buffer[before..]))
            && (buffer[before..] == Tail(buffer[before..]) ==> after == before)
  {
    hide FrontOf;
    if FrontOf(buffer[before..]).Whole? {
      var n := FrontOf(buffer[before..]).size;
      FramesUnfold(buffer[before..], n);
      assert buffer[before..][n..] == buffer[before + n..];
    }
  }

  /** Draining ends (the iterator returns `None` at some call) exactly when no unreadable length is left over. */
  lemma DrainEndsIffNotStuck(buffer: seq<byte>)
    ensures (exists k :: ItemAt(buffer, OffsetAfterCalls(buffer, k)) == None) <==> !Stuck(buffer)
  {
    forall k | ItemAt(buffer, OffsetAfterCalls(buffer, k)) == None
      ensures !Stuck(buffer)
    {
      CallsReachTail(buffer, k);
    }
    if !Stuck(buffer) {
      CallsReachTail(buffer, |buffer|);
      assert ItemAt(buffer, OffsetAfterCalls(buffer, |buffer|)) == None;
    }
  }

  // ---- Frames of a stream ----

  /** Nothing is lost or invented. */
  lemma {:induction false} FramesAndTail(s: seq<byte>)
    ensures Concat(Frames(s)) + Tail(s) == s
  {
    if FrontOf(s).Whole? {
      var n := FrontOf(s).size;
      FramesAndTail(s[n..]);
      FramesUnfold(s, n);
      ConcatCons(s[..n], Frames(s[n..]));
      hide FrontOf, Frames, Tail, Concat;
      Reassembled(s, n, Concat(Frames(s[n..])), Tail(s[n..]));
    }
  }

  /** What is yielded is exactly one frame, on which the decoders are total. */
  lemma {:induction false} FramesAreExact(s: seq<byte>)
    ensures forall f :: f in Frames(s) ==> ExactFrame(f)
  {
    if FrontOf(s).Whole? {
      var n := FrontOf(s).size;
      FramesAreExact(s[n..]);
      var (len, k) := VarInt.Read(s[1..]).value;
      VarInt.ReadPrefix(s[1..]);
      VarInt.ReadStable(s[1..][..k], s[1 + k..n]);
      assert s[..n][1..] == s[1..][..k] + s[1 + k..n];
    }
  }

  /** A whole frame at the front stays whole when more bytes arrive. */
  lemma FrontIsStable(a: seq<byte>, b: seq<byte>)
    requires FrontOf(a).Whole?
    ensures FrontOf(a + b) == FrontOf(a)
  {
    VarInt.ReadStable(a[1..], b);
    assert (a + b)[1..] == a[1..] + b;
  }

  lemma FramesUnfold(s: seq<byte>, n: nat)
    requires FrontOf(s) == Whole(n)
    ensures Frames(s) == [s[..n]] + Frames(s[n..]) && Tail(s) == Tail(s[n..])
  {
  }

  lemma FramesEnd(s: seq<byte>)
    requires !FrontOf(s).Whole?
    ensures Frames(s) == [] && Tail(s) == s
  {
  }

  lemma SliceAppend(a: seq<byte>, b: seq<byte>, n: nat)
    requires n <= |a|
    ensures (a + b)[..n] == a[..n] && (a + b)[n..] == a[n..] + b
  {
  }

  /** Cutting can resume from the tail. */
  lemma {:induction false} FramesResume(a: seq<byte>, b: seq<byte>)
    ensures Frames(a + b) == Frames(a) + Frames(Tail(a) + b)
    ensures Tail(a + b) == Tail(Tail(a) + b)
  {
    hide FrontOf;
    if FrontOf(a).Whole? {
      FrontIsStable(a, b);
      var n := FrontOf(a).size;
      FramesResume(a[n..], b);
      SliceAppend(a, b, n);
      FramesUnfold(a, n);
      FramesUnfold(a + b, n);
      hide Frames, Tail;
      var x, y, z := [a[..n]], Frames(a[n..]), Frames(Tail(a) + b);
      assert Frames(a + b) == x + (y + z) == x + y + z;
    } else {
      assert [] + Frames(a + b) == Frames(a + b);
    }
  }

  // ---- A peer that keeps what it has not yet cut ----

  /** The frames a peer gets out of successive reads, starting with `tail` already buffered. */
  function FramesOfReads(tail: seq<byte>, chunks: seq<seq<byte>>): seq<seq<byte>>
    decreases |chunks|
  {
    if chunks == [] then [] else Frames(tail + chunks[0]) + FramesOfReads(Tail(tail + chunks[0]), chunks[1..])
  }

  function TailOfReads(tail: seq<byte>, chunks: seq<seq<byte>>): seq<byte>
    decreases |chunks|
  {
    if chunks == [] then tail else TailOfReads(Tail(tail + chunks[0]), chunks[1..])
  }

  /** However the stream is cut into reads, such a peer sees the frames of the whole stream. */
  lemma {:induction false} Reassembles(tail: seq<byte>, chunks: seq<seq<byte>>)
    requires !FrontOf(tail).Whole?
    ensures FramesOfReads(tail, chunks) == Frames(tail + Concat(chunks))
    ensures TailOfReads(tail, chunks) == Tail(tail + Concat(chunks))
    decreases |chunks|
  {
    hide FrontOf;
    if chunks == [] {
      assert tail + Concat(chunks) == tail;
    } else {
      Reassembles(Tail(tail + chunks[0]), chunks[1..]);
      FramesResume(tail + chunks[0], Concat(chunks[1..]));
      assert tail + Concat(chunks) == tail + chunks[0] + Concat(chunks[1..]);
    }
  }

  /** What the iterator yields next, in terms of what is left. */
  lemma NextItem(data: seq<byte>, consumed: nat)
    requires consumed <= |data| && Tail(data[consumed..]) == Tail(data)
    ensures var item, next, left := ItemAt(data, consumed), OffsetAfter(data, consumed), data[consumed..];
            && (item == None ==> Frames(left) == [] && Tail(data) == left && FrontOf(left).Partial?)
            && (item.Some? && item.value.Failure? ==>
                  Frames(left) == [] && Tail(data) == left && FrontOf(left) == Unreadable(item.value.error))
            && (item.Some? && item.value.Success? ==>
                  && next == consumed + |item.value.value| && next > consumed
                  && Frames(left) == [item.value.value] + Frames(data[next..])
                  && Tail(data[next..]) == Tail(data))
  {
    hide FrontOf, Frames, Tail;
    var left := data[consumed..];
    if FrontOf(left).Whole? {
      FramesUnfold(left, FrontOf(left).size);
      SliceOfSlice(data, consumed, FrontOf(left).size);
    } else {
      FramesEnd(left);
    }
  }

  // ---- Streams of packets ----

  predicate AllCarried(ps: seq<Packet>, v: Version) {
    forall p :: p in ps ==> Carried(p, v) && Sendable(p, v)
  }

  /** The encodings of a list of packets. */
  function Encodings(ps: seq<Packet>, v: Version): (s: seq<seq<byte>>)
    ensures |s| == |ps|
  {
    if ps == [] then [] else [Encoded(ps[0], v)] + Encodings(ps[1..], v)
  }

  /** Decoding every frame of a list. */
  function DecodeAll(frames: seq<seq<byte>>, v: Version): seq<Result<Option<Packet>, PacketError>> {
    if frames == [] then [] else [Decode(frames[0], v)] + DecodeAll(frames[1..], v)
  }

  function Received(ps: seq<Packet>): seq<Result<Option<Packet>, PacketError>> {
    if ps == [] then [] else [Success(Some(ps[0]))] + Received(ps[1..])
  }

  lemma {:induction false} ReceivedAt(ps: seq<Packet>, i: nat)
    requires i < |ps|
    ensures |Received(ps)| == |ps| && Received(ps)[i] == Success(Some(ps[i]))
  {
    if |ps| > 1 {
      ReceivedAt(ps[1..], if i == 0 then 0 else i - 1);
    }
  }

  /** The length of a frame is read back from its first bytes, as soon as they are there. */
  lemma FrontOfFrame(first: byte, body: seq<byte>, rest: seq<byte>)
    requires |body| <= VarInt.MAX_VARINT
    ensures FrontOf(Frame(first, body) + rest) == Whole(|Frame(first, body)|)
  {
    FrameIs(first, body);
    var s := Frame(first, body) + rest;
    assert s[1..] == VarInt.Encoding(|body|) + (body + rest);
    VarInt.ReadInvertsEncoding(|body|, body + rest);
  }

  lemma EncodingsFront(ps: seq<Packet>, v: Version, more: seq<byte>)
    requires ps != []
    ensures Concat(Encodings(ps, v)) + more == Encoded(ps[0], v) + (Concat(Encodings(ps[1..], v)) + more)
  {
    hide Encoded, Concat;
    ConcatCons(Encoded(ps[0], v), Encodings(ps[1..], v));
    Associative(Encoded(ps[0], v), Concat(Encodings(ps[1..], v)), more);
  }

  lemma OneEncoding(p: Packet, v: Version)
    ensures Concat(Encodings([p], v)) == Encoded(p, v)
  {
    hide Encoded;
    assert [p][1..] == [];
    assert Encoded(p, v) + [] == Encoded(p, v);
  }

  lemma {:induction false} EncodingsAppend(a: seq<Packet>, b: seq<Packet>, v: Version)
    ensures Encodings(a + b, v) == Encodings(a, v) + Encodings(b, v)
  {
    hide Encoded;
    if a == [] {
      assert a + b == b;
    } else {
      assert (a + b)[0] == a[0] && (a + b)[1..] == a[1..] + b;
      EncodingsAppend(a[1..], b, v);
      Associative([Encoded(a[0], v)], Encodings(a[1..], v), Encodings(b, v));
    }
  }

  lemma {:induction false} FramesOfEncodings(ps: seq<Packet>, v: Version, rest: seq<byte>)
    requires AllCarried(ps, v)
    ensures Frames(Concat(Encodings(ps, v)) + rest) == Encodings(ps, v) + Frames(rest)
    ensures Tail(Concat(Encodings(ps, v)) + rest) == Tail(rest)
  {
    hide Carried, Body, FirstByte, FrontOf, Frame;
    var s := Concat(Encodings(ps, v)) + rest;
    if ps == [] {
      assert s == rest && [] + Frames(rest) == Frames(rest);
    } else {
      var head, later := Encoded(ps[0], v), Concat(Encodings(ps[1..], v)) + rest;
      assert Sendable(ps[0], v);
      FrontOfFrame(FirstByte(ps[0]), Body(ps[0], v), later);
      hide Encoded, Sendable;
      assert s == head + later;
      Halves(head, later);
      FramesOfEncodings(ps[1..], v, rest);
      assert [head] + (Encodings(ps[1..], v) + Frames(rest)) == [head] + Encodings(ps[1..], v) + Frames(rest);
    }
  }

  lemma {:induction false} DecodeEncodings(ps: seq<Packet>, v: Version)
    requires AllCarried(ps, v)
    ensures DecodeAll(Encodings(ps, v), v) == Received(ps)
  {
    hide Carried, Decode, Encoded, Sendable;
    if ps != [] {
      DecodeInvertsEncoded(ps[0], v, []);
      assert Encoded(ps[0], v) + [] == Encoded(ps[0], v);
      DecodeEncodings(ps[1..], v);
    }
  }

  /** Any list of packets, sent as bytes and cut into any reads, is received by such a peer as the same list. */
  lemma PeerReceives(ps: seq<Packet>, v: Version, chunks: seq<seq<byte>>)
    requires AllCarried(ps, v) && Concat(chunks) == Concat(Encodings(ps, v))
    ensures DecodeAll(FramesOfReads([], chunks), v) == Received(ps)
    ensures TailOfReads([], chunks) == []
  {
    hide Carried, Decode, Encoded, Sendable;
    Reassembles([], chunks);
    FramesOfEncodings(ps, v, []);
    assert [] + Concat(chunks) == Concat(chunks) == Concat(Encodings(ps, v)) + [];
    assert Encodings(ps, v) + [] == Encodings(ps, v);
    DecodeEncodings(ps, v);
  }

  /**
   A read that ends inside a frame leaves the drain loop alive exactly when it ends before the length field or
   behind it.
   */
  lemma CutIsSafeIff(first: byte, body: seq<byte>, k: nat)
    requires |body| <= VarInt.MAX_VARINT && k < |Frame(first, body)|
    ensures !Stuck(Frame(first, body)[..k]) <==> k <= 1 || k >= 1 + |VarInt.Encoding(|body|)|
  {
    var s, length := Frame(first, body)[..k], VarInt.Encoding(|body|);
    VarInt.EncodingLength(|body|);
    if k >= 1 + |length| {
      CutBehindLength(first, body, k);
    } else if k >= 2 {
      FrameIs(first, body);
      assert s[1..] == length[..k - 1];
      TruncatedLength(|body|, k - 1, 4);
      assert FrontOf(s).Unreadable?;
    }
    hide FrontOf, VarInt.Encoding, Frame;
    if !FrontOf(s).Whole? {
      FramesEnd(s);
    }
  }

  lemma CutBehindLength(first: byte, body: seq<byte>, k: nat)
    requires |body| <= VarInt.MAX_VARINT && 1 + |VarInt.Encoding(|body|)| <= k < |Frame(first, body)|
    ensures FrontOf(Frame(first, body)[..k]) == Partial
  {
    var s, length := Frame(first, body)[..k], VarInt.Encoding(|body|);
    var more := body[..k - 1 - |length|];
    FrameIs(first, body);
    VarInt.ReadInvertsEncoding(|body|, more);
    hide VarInt.Encoding, VarInt.Read, Frame;
    assert [first] + length + body == [first] + (length + body);
    assert s == [first] + (length + more);
    assert s[1..] == length + more;
  }

  lemma {:induction false} TruncatedLength(n: nat, k: nat, room: nat)
    requires k < |VarInt.Encoding(n)| <= room
    ensures VarInt.ReadWithin(VarInt.Encoding(n)[..k], room) == Failure(IncompletePacket)
    decreases n
  {
    if k > 0 {
      assert VarInt.Encoding(n)[..k][1..] == VarInt.Encoding(n / 128)[..k - 1];
      TruncatedLength(n / 128, k - 1, room - 1);
    }
  }

  // ---- The receive loop ----

  /** How a run of reads ends: waiting for the next one, closed by an empty read, or in a drain loop without end. */
  datatype Fate = Waiting(tail: seq<byte>) | Closed | Hung

  /** The frames handed on by the reads of a run, and its fate. */
  datatype Run = Run(frames: seq<seq<byte>>, fate: Fate)

  /**
   The reads of `drive_connection`, with `tail` already buffered. A read that leaves an unreadable length behind the
   whole frames never gets out of the drain loop, so not even its frames are handed on.
   */
  function RunOfReads(tail: seq<byte>, chunks: seq<seq<byte>>): Run
    decreases |chunks|
  {
    if chunks == [] then Run([], Waiting(tail))
    else if chunks[0] == [] then Run([], Closed)
    else if Stuck(tail + chunks[0]) then Run([], Hung)
    else
      var later := RunOfReads(Tail(tail + chunks[0]), chunks[1..]);
      Run(Frames(tail + chunks[0]) + later.frames, later.fate)
  }

  /** No read is empty, and none ends where the stream so far ends in an unreadable length. */
  predicate Survives(sofar: seq<byte>, chunks: seq<seq<byte>>) {
    forall i :: 0 < i <= |chunks| ==> SurvivesRead(sofar, chunks, i)
  }

  predicate SurvivesRead(sofar: seq<byte>, chunks: seq<seq<byte>>, i: nat)
    requires 0 < i <= |chunks|
  {
    chunks[i - 1] != [] && !Stuck(sofar + Concat(chunks[..i]))
  }

  lemma StuckResumes(a: seq<byte>, b: seq<byte>)
    ensures Stuck(Tail(a) + b) <==> Stuck(a + b)
  {
    hide FrontOf, Tail;
    FramesResume(a, b);
  }

  lemma ConcatStep(chunks: seq<seq<byte>>, i: nat)
    requires 0 < i <= |chunks|
    ensures Concat(chunks[..i]) == chunks[0] + Concat(chunks[1..][..i - 1])
  {
    assert chunks[..i] == [chunks[0]] + chunks[1..][..i - 1];
    ConcatCons(chunks[0], chunks[1..][..i - 1]);
  }

  lemma SurvivesStep(sofar: seq<byte>, chunks: seq<seq<byte>>)
    requires chunks != []
    ensures Survives(sofar, chunks)
       <==> chunks[0] != [] && !Stuck(sofar + chunks[0]) && Survives(sofar + chunks[0], chunks[1..])
  {
    hide Stuck, Concat;
    var c, later := chunks[0], chunks[1..];
    forall i | 1 < i <= |chunks|
      ensures SurvivesRead(sofar, chunks, i) <==> SurvivesRead(sofar + c, later, i - 1)
    {
      ConcatStep(chunks, i);
      Associative(sofar, c, Concat(later[..i - 1]));
    }
    FirstSurvives(sofar, chunks);
    hide SurvivesRead;
    if Survives(sofar, chunks) {
      forall i | 0 < i <= |later| ensures SurvivesRead(sofar + c, later, i) {
        assert SurvivesRead(sofar, chunks, i + 1);
      }
    } else {
      var i :| 0 < i <= |chunks| && !SurvivesRead(sofar, chunks, i);
      assert i > 1 ==> !SurvivesRead(sofar + c, later, i - 1);
    }
  }

  lemma FirstSurvives(sofar: seq<byte>, chunks: seq<seq<byte>>)
    requires chunks != []
    ensures SurvivesRead(sofar, chunks, 1) <==> chunks[0] != [] && !Stuck(sofar + chunks[0])
  {
    hide Stuck;
    assert chunks[..1] == [chunks[0]] + [];
    ConcatCons(chunks[0], []);
    assert Concat(chunks[..1]) == chunks[0] + [] == chunks[0];
  }

  /**
   A run of reads stays alive exactly when it survives every boundary, and then frames and tail are those of the whole
   stream; `sofar` is what came before, its tail still in the buffer.
   */
  lemma {:induction false} ReadsDoNotMatter(sofar: seq<byte>, chunks: seq<seq<byte>>)
    ensures var r, all := RunOfReads(Tail(sofar), chunks), Tail(sofar) + Concat(chunks);
            && (r.fate.Waiting? <==> Survives(sofar, chunks))
            && (r.fate.Waiting? ==> r == Run(Frames(all), Waiting(Tail(sofar + Concat(chunks)))))
    decreases |chunks|
  {
    hide FrontOf, Stuck, Survives;
    if chunks == [] {
      NoReads(sofar);
    } else {
      var c, tail := chunks[0], Tail(sofar);
      SurvivesStep(sofar, chunks);
      StuckResumes(sofar, c);
      FramesResume(sofar, c);
      ReadsDoNotMatter(sofar + c, chunks[1..]);
      FramesResume(tail + c, Concat(chunks[1..]));
      Associative(tail, c, Concat(chunks[1..]));
      Associative(sofar, c, Concat(chunks[1..]));
    }
  }

  lemma NoReads(sofar: seq<byte>)
    ensures Survives(sofar, []) && Frames(Tail(sofar) + Concat([])) == [] && Tail(sofar + Concat([])) == Tail(sofar)
  {
    FramesEnd(Tail(sofar));
    assert Tail(sofar) + [] == Tail(sofar) && sofar + [] == sofar;
  }

  // ---- The receive loop on a stream of packets ----

  /** Position `b` of the packets' bytes is strictly inside a length field: behind its packet type, before its end. */
  predicate InsideLength(ps: seq<Packet>, v: Version, b: nat) {
    ps != []
    && if b < |Encoded(ps[0], v)| then 1 < b < 1 + |VarInt.Encoding(|Body(ps[0], v)|)|
       else InsideLength(ps[1..], v, b - |Encoded(ps[0], v)|)
  }

  /** No read is empty, and none ends strictly inside a length field. */
  predicate CutsAreSafe(ps: seq<Packet>, v: Version, chunks: seq<seq<byte>>) {
    forall i :: 0 < i <= |chunks| ==> CutIsSafe(ps, v, chunks, i)
  }

  predicate CutIsSafe(ps: seq<Packet>, v: Version, chunks: seq<seq<byte>>, i: nat)
    requires 0 < i <= |chunks|
  {
    chunks[i - 1] != [] && !InsideLength(ps, v, |Concat(chunks[..i])|)
  }

  /** What is left of a stream of packets at position `b`: nothing readable exactly inside a length field. */
  lemma {:induction false} PrefixIsStuckIff(ps: seq<Packet>, v: Version, b: nat)
    requires AllCarried(ps, v) && b <= |Concat(Encodings(ps, v))|
    ensures Stuck(Concat(Encodings(ps, v))[..b]) <==> InsideLength(ps, v, b)
    decreases |ps|
  {
    hide Carried, Body, FirstByte, FrontOf, Frame, Stuck;
    var s := Concat(Encodings(ps, v));
    if ps == [] {
      EmptyIsCalm();
      assert s[..b] == [];
    } else {
      var p, later := ps[0], Concat(Encodings(ps[1..], v));
      assert Carried(p, v) && Sendable(p, v);
      EncodingsFront(ps, v, []);
      assert s + [] == s && later + [] == later;
      var n := |Encoded(p, v)|;
      if b < n {
        assert s[..b] == Encoded(p, v)[..b];
        CutIsSafeIff(FirstByte(p), Body(p, v), b);
      } else {
        assert s[..b] == Encoded(p, v) + later[..b - n];
        StuckBehindPacket(p, v, later[..b - n]);
        PrefixIsStuckIff(ps[1..], v, b - n);
      }
    }
  }

  lemma EmptyIsCalm()
    ensures !Stuck([])
  {
  }

  lemma StuckBehindPacket(p: Packet, v: Version, rest: seq<byte>)
    requires Sendable(p, v)
    ensures Stuck(Encoded(p, v) + rest) <==> Stuck(rest)
    ensures Tail(Encoded(p, v) + rest) == Tail(rest)
  {
    hide Body, FirstByte, FrontOf, Frame;
    FrontOfFrame(FirstByte(p), Body(p, v), rest);
    FramesUnfold(Encoded(p, v) + rest, |Encoded(p, v)|);
    Halves(Encoded(p, v), rest);
  }

  /**
   Any list of packets, sent as bytes and cut into reads, is received as the same list with nothing left over if and
   only if no read is empty and none ends strictly inside a length field.
   */
  lemma StreamDelivers(ps: seq<Packet>, v: Version, chunks: seq<seq<byte>>)
    requires AllCarried(ps, v) && Concat(chunks) == Concat(Encodings(ps, v))
    ensures var r := RunOfReads([], chunks);
            && (r.fate.Waiting? <==> CutsAreSafe(ps, v, chunks))
            && (r.fate.Waiting? ==> r == Run(Encodings(ps, v), Waiting([])) && DecodeAll(r.frames, v) == Received(ps))
  {
    hide Carried, Decode, Encoded, Sendable, Survives, CutsAreSafe, Stuck, FrontOf, RunOfReads;
    ReadsDoNotMatter([], chunks);
    EmptyHasNoFrames();
    FramesOfEncodings(ps, v, []);
    var s := Concat(Encodings(ps, v));
    assert s + [] == s && [] + Concat(chunks) == s && Encodings(ps, v) + [] == Encodings(ps, v);
    DecodeEncodings(ps, v);
    SurvivesIffSafe(ps, v, chunks);
  }

  lemma SurvivesIffSafe(ps: seq<Packet>, v: Version, chunks: seq<seq<byte>>)
    requires AllCarried(ps, v) && Concat(chunks) == Concat(Encodings(ps, v))
    ensures Survives([], chunks) <==> CutsAreSafe(ps, v, chunks)
  {
    hide AllCarried, Stuck, InsideLength, Encodings;
    forall i | 0 < i <= |chunks|
      ensures SurvivesRead([], chunks, i) <==> CutIsSafe(ps, v, chunks, i)
    {
      ConcatPrefix(chunks, i);
      var b := |Concat(chunks[..i])|;
      assert [] + Concat(chunks[..i]) == Concat(chunks)[..b];
      PrefixIsStuckIff(ps, v, b);
    }
  }

  lemma ConcatPrefix(chunks: seq<seq<byte>>, i: nat)
    requires i <= |chunks|
    ensures |Concat(chunks[..i])| <= |Concat(chunks)| && Concat(chunks)[..|Concat(chunks[..i])|] == Concat(chunks[..i])
  {
    assert chunks == chunks[..i] + chunks[i..];
    ConcatAppend(chunks[..i], chunks[i..]);
    Halves(Concat(chunks[..i]), Concat(chunks[i..]));
  }

  lemma EmptyHasNoFrames()
    ensures Frames([]) == [] && Tail([]) == [] && !FrontOf([]).Whole?
  {
  }

  /** After a drain there is room for the next read, unless the frame under way is larger than the buffer. */
  lemma RoomForTheNextRead(s: seq<byte>, capacity: nat)
    requires !Stuck(s) && capacity >= 2
    requires var t := Tail(s); |t| >= 2 ==> 1 + VarInt.Read(t[1..]).value.1 + VarInt.Read(t[1..]).value.0 <= capacity
    ensures |Tail(s)| < capacity
  {
  }

  /** On a stream of packets no larger than the buffer, every read that survives leaves room for the next. */
  lemma {:induction false} PacketsLeaveRoom(ps: seq<Packet>, v: Version, b: nat, capacity: nat)
    requires AllCarried(ps, v) && b <= |Concat(Encodings(ps, v))| && capacity > 0
    requires forall p :: p in ps ==> |Encoded(p, v)| <= capacity
    ensures |Tail(Concat(Encodings(ps, v))[..b])| < capacity
    decreases |ps|
  {
    hide *;
    var s := Concat(Encodings(ps, v));
    TailIsShort(s[..b]);
    if ps == [] {
      NothingEncoded(v);
    } else {
      var p, later := ps[0], Concat(Encodings(ps[1..], v));
      var front := Encoded(p, v);
      EncodingsCons(ps, v);
      AllCarriedCons(ps, v);
      if b >= |front| {
        CutBehind(front, later, b);
        StuckBehindPacket(p, v, later[..b - |front|]);
        PacketsLeaveRoom(ps[1..], v, b - |front|, capacity);
      }
    }
  }

  lemma TailIsShort(s: seq<byte>)
    ensures |Tail(s)| <= |s|
  {
  }

  lemma NothingEncoded(v: Version)
    ensures Concat(Encodings([], v)) == []
  {
  }

  lemma EncodingsCons(ps: seq<Packet>, v: Version)
    requires ps != []
    ensures Concat(Encodings(ps, v)) == Encoded(ps[0], v) + Concat(Encodings(ps[1..], v))
  {
    EncodingsFront(ps, v, []);
    hide *;
    assert Concat(Encodings(ps, v)) + [] == Concat(Encodings(ps, v));
    assert Concat(Encodings(ps[1..], v)) + [] == Concat(Encodings(ps[1..], v));
  }

  lemma AllCarriedCons(ps: seq<Packet>, v: Version)
    requires AllCarried(ps, v) && ps != []
    ensures Carried(ps[0], v) && Sendable(ps[0], v) && AllCarried(ps[1..], v) && ps[0] in ps
    ensures forall p :: p in ps[1..] ==> p in ps
  {
    hide Carried, Sendable;
    assert ps[0] in ps;
  }

  lemma CutBehind<T>(front: seq<T>, later: seq<T>, b: nat)
    requires |front| <= b <= |front| + |later|
    ensures (front + later)[..b] == front + later[..b - |front|]
  {
  }

  lemma AllCarriedAppend(a: seq<Packet>, b: seq<Packet>, v: Version)
    requires AllCarried(a, v) && AllCarried(b, v)
    ensures AllCarried(a + b, v)
  {
    hide Carried, Sendable;
  }

  lemma AllCarriedHalves(a: seq<Packet>, b: seq<Packet>, v: Version)
    requires AllCarried(a + b, v)
    ensures AllCarried(a, v) && AllCarried(b, v)
  {
    hide Carried, Sendable;
    assert forall p :: p in a || p in b ==> p in a + b;
  }

  lemma EncodedTogether(a: seq<Packet>, b: seq<Packet>, v: Version)
    ensures Concat(Encodings(a + b, v)) == Concat(Encodings(a, v)) + Concat(Encodings(b, v))
  {
    EncodingsAppend(a, b, v);
    ConcatAppend(Encodings(a, v), Encodings(b, v));
  }

  // ---- A stream of packets cut at any position ----

  /** The frames in the first `b` bytes are the first packets; the rest is what the others are made of. */
  lemma {:induction false} FramesOfPrefix(qs: seq<Packet>, v: Version, b: nat) returns (k: nat)
    requires AllCarried(qs, v) && b <= |Concat(Encodings(qs, v))|
    ensures k <= |qs|
    ensures var s := Concat(Encodings(qs, v));
            Frames(s[..b]) == Encodings(qs[..k], v) && Tail(s[..b]) + s[b..] == Concat(Encodings(qs[k..], v))
    decreases |qs|
  {
    hide *;
    k := 0;
    var s := Concat(Encodings(qs, v));
    NoEncodings(qs, v);
    if qs == [] {
      EmptyHasNoFrames();
    } else {
      var front, later := Encoded(qs[0], v), Concat(Encodings(qs[1..], v));
      EncodingsCons(qs, v);
      AllCarriedCons(qs, v);
      if b >= |front| {
        var c := b - |front|;
        CutBehind(front, later, b);
        BehindFront(front, later, b);
        PacketUnfolds(qs[0], v, later[..c]);
        k := FramesOfPrefix(qs[1..], v, c);
        EncodingsPrefix(qs, v, k + 1);
        assert qs[1..][..k] == qs[1..k + 1] && qs[1..][k..] == qs[k + 1..];
        k := k + 1;
      } else {
        CutFrame(qs[0], v, later, b);
        assert qs[..0] == [] && qs[0..] == qs;
        Joins(s, 0, b, |s|);
        assert s[0..b] == s[..b] && s[b..|s|] == s[b..] && s[0..|s|] == s;
      }
    }
  }

  lemma NoEncodings(qs: seq<Packet>, v: Version)
    ensures Encodings([], v) == [] && Concat<byte>([]) == []
    ensures qs == [] ==> Concat(Encodings(qs, v)) == [] && qs[..0] == [] && qs[0..] == []
  {
  }

  lemma EncodingsPrefix(qs: seq<Packet>, v: Version, k: nat)
    requires 0 < k <= |qs|
    ensures Encodings(qs[..k], v) == [Encoded(qs[0], v)] + Encodings(qs[1..k], v)
  {
    assert qs[..k][1..] == qs[1..k];
    hide Encoded;
  }

  lemma BehindFront<T>(front: seq<T>, later: seq<T>, b: nat)
    requires |front| <= b <= |front| + |later|
    ensures (front + later)[b..] == later[b - |front|..]
  {
  }

  lemma PacketUnfolds(p: Packet, v: Version, rest: seq<byte>)
    requires Sendable(p, v)
    ensures Frames(Encoded(p, v) + rest) == [Encoded(p, v)] + Frames(rest)
    ensures Tail(Encoded(p, v) + rest) == Tail(rest)
  {
    hide Body, FirstByte, FrontOf, Frame;
    FrontOfFrame(FirstByte(p), Body(p, v), rest);
    FramesUnfold(Encoded(p, v) + rest, |Encoded(p, v)|);
    Halves(Encoded(p, v), rest);
  }

  /** Part of a frame is no frame. */
  lemma CutFrame(p: Packet, v: Version, later: seq<byte>, b: nat)
    requires Sendable(p, v) && b < |Encoded(p, v)|
    ensures var s := Encoded(p, v) + later; Frames(s[..b]) == [] && Tail(s[..b]) == s[..b]
  {
    hide Body, FirstByte, FrontOf, Frame, Frames, Tail;
    var s := Encoded(p, v) + later;
    FrontOfFrame(FirstByte(p), Body(p, v), later);
    if FrontOf(s[..b]).Whole? {
      FrontIsStable(s[..b], s[b..]);
      assert s[..b] + s[b..] == s;
      WholeIsWithin(s[..b]);
    }
    FramesEnd(s[..b]);
  }

  lemma WholeIsWithin(s: seq<byte>)
    requires FrontOf(s).Whole?
    ensures FrontOf(s).size <= |s|
  {
  }

  // ---- How far the reads matter ----

  /**
   Of the reads behind the first `a` bytes of the packets, those that begin before position `n` are not empty and do not
   end strictly inside a length field.
   */
  predicate SafeBefore(ps: seq<Packet>, v: Version, a: nat, chunks: seq<seq<byte>>, n: nat) {
    forall i :: 0 < i <= |chunks| && a + |Concat(chunks[..i - 1])| < n ==> EndsSafely(ps, v, a, chunks, i)
  }

  predicate EndsSafely(ps: seq<Packet>, v: Version, a: nat, chunks: seq<seq<byte>>, i: nat)
    requires 0 < i <= |chunks|
  {
    chunks[i - 1] != [] && !InsideLength(ps, v, a + |Concat(chunks[..i])|)
  }

  lemma SafeBeforeStep(ps: seq<Packet>, v: Version, a: nat, chunks: seq<seq<byte>>, n: nat)
    requires chunks != [] && a < n
    ensures SafeBefore(ps, v, a, chunks, n)
       <==> chunks[0] != [] && !InsideLength(ps, v, a + |chunks[0]|)
            && SafeBefore(ps, v, a + |chunks[0]|, chunks[1..], n)
  {
    hide *;
    var c, later := chunks[0], chunks[1..];
    var b := a + |c|;
    FirstEndsSafely(ps, v, a, chunks);
    if SafeBefore(ps, v, a, chunks, n) {
      SafeAt(ps, v, a, chunks, n, 1);
      forall i | 0 < i <= |later|
        ensures b + |Concat(later[..i - 1])| < n ==> EndsSafely(ps, v, b, later, i)
      {
        EndsSafelyLater(ps, v, a, chunks, i + 1);
        ConcatStep(chunks, i);
        if a + |Concat(chunks[..i])| < n {
          SafeAt(ps, v, a, chunks, n, i + 1);
        }
      }
      AllSafe(ps, v, b, later, n);
    } else if SafeBefore(ps, v, b, later, n) && c != [] && !InsideLength(ps, v, b) {
      forall i | 0 < i <= |chunks|
        ensures a + |Concat(chunks[..i - 1])| < n ==> EndsSafely(ps, v, a, chunks, i)
      {
        if i > 1 {
          EndsSafelyLater(ps, v, a, chunks, i);
          ConcatStep(chunks, i - 1);
          if a + |Concat(chunks[..i - 1])| < n {
            SafeAt(ps, v, b, later, n, i - 1);
          }
        }
      }
      AllSafe(ps, v, a, chunks, n);
    }
  }

  lemma SafeAt(ps: seq<Packet>, v: Version, a: nat, chunks: seq<seq<byte>>, n: nat, i: nat)
    requires SafeBefore(ps, v, a, chunks, n) && 0 < i <= |chunks| && a + |Concat(chunks[..i - 1])| < n
    ensures EndsSafely(ps, v, a, chunks, i)
  {
    hide EndsSafely, Concat;
  }

  lemma AllSafe(ps: seq<Packet>, v: Version, a: nat, chunks: seq<seq<byte>>, n: nat)
    requires forall i :: 0 < i <= |chunks| && a + |Concat(chunks[..i - 1])| < n ==> EndsSafely(ps, v, a, chunks, i)
    ensures SafeBefore(ps, v, a, chunks, n)
  {
    hide EndsSafely, Concat;
  }

  lemma FirstEndsSafely(ps: seq<Packet>, v: Version, a: nat, chunks: seq<seq<byte>>)
    requires chunks != []
    ensures EndsSafely(ps, v, a, chunks, 1) <==> chunks[0] != [] && !InsideLength(ps, v, a + |chunks[0]|)
    ensures Concat(chunks[..0]) == []
  {
    ConcatStep(chunks, 1);
    assert chunks[1..][..0] == [] && chunks[..0] == [];
    assert chunks[0] + [] == chunks[0];
    hide InsideLength;
  }

  lemma EndsSafelyLater(ps: seq<Packet>, v: Version, a: nat, chunks: seq<seq<byte>>, i: nat)
    requires 1 < i <= |chunks|
    ensures EndsSafely(ps, v, a, chunks, i) <==> EndsSafely(ps, v, a + |chunks[0]|, chunks[1..], i - 1)
  {
    ConcatStep(chunks, i);
    hide InsideLength, Concat;
  }

  /** With all reads counted, this is the condition on cuts. */
  lemma SafeCutsAreSafe(ps: seq<Packet>, v: Version, chunks: seq<seq<byte>>, n: nat)
    requires |Concat(chunks)| < n
    ensures SafeBefore(ps, v, 0, chunks, n) <==> CutsAreSafe(ps, v, chunks)
  {
    hide InsideLength;
    forall i | 0 < i <= |chunks|
      ensures |Concat(chunks[..i - 1])| < n && (EndsSafely(ps, v, 0, chunks, i) <==> CutIsSafe(ps, v, chunks, i))
    {
      ConcatPrefix(chunks, i - 1);
    }
    hide EndsSafely, CutIsSafe, Concat;
  }

  /** Every packet is received if and only if no read that begins before the end of the stream is empty or unsafe. */
  lemma AllFramesIff(ps: seq<Packet>, v: Version, chunks: seq<seq<byte>>)
    requires AllCarried(ps, v) && Concat(chunks) == Concat(Encodings(ps, v))
    ensures RunOfReads([], chunks).frames == Encodings(ps, v)
       <==> SafeBefore(ps, v, 0, chunks, |Concat(Encodings(ps, v))|)
  {
    hide *;
    var s := Concat(Encodings(ps, v));
    EmptyHasNoFrames();
    assert [] + Concat(chunks) == Concat(chunks) && s + [] == s && Encodings(ps, v) + [] == Encodings(ps, v);
    FramesOfEncodings(ps, v, []);
    FramesFrom(ps, v, [], chunks);
  }

  /** The same from the middle of the stream; `sofar` is what came before. */
  lemma {:induction false} FramesFrom(ps: seq<Packet>, v: Version, sofar: seq<byte>, chunks: seq<seq<byte>>)
    requires AllCarried(ps, v) && sofar + Concat(chunks) == Concat(Encodings(ps, v))
    ensures RunOfReads(Tail(sofar), chunks).frames == Frames(Tail(sofar) + Concat(chunks))
       <==> SafeBefore(ps, v, |sofar|, chunks, |Concat(Encodings(ps, v))|)
    decreases |chunks|
  {
    hide *;
    var tail, s := Tail(sofar), Concat(Encodings(ps, v));
    UnfoldRun(tail, chunks);
    if chunks == [] || |sofar| == |s| {
      SafeWithout(ps, v, |sofar|, chunks, |s|);
      NoReads(sofar);
      NothingMore(sofar, chunks);
    } else {
      var c, rest := chunks[0], Concat(chunks[1..]);
      ConcatFront(chunks);
      SafeBeforeStep(ps, v, |sofar|, chunks, |s|);
      SomethingMore(ps, v, sofar, Concat(chunks));
      Associative(sofar, c, rest);
      Associative(tail, c, rest);
      Halves(sofar + c, rest);
      PrefixIsStuckIff(ps, v, |sofar + c|);
      StuckResumes(sofar, c);
      if c != [] && !Stuck(tail + c) {
        FramesResume(sofar, c);
        FramesResume(tail + c, rest);
        FramesFrom(ps, v, sofar + c, chunks[1..]);
        var here := Frames(tail + c);
        Halves(here, RunOfReads(Tail(tail + c), chunks[1..]).frames);
        Halves(here, Frames(Tail(tail + c) + rest));
      }
    }
  }

  lemma UnfoldRun(tail: seq<byte>, chunks: seq<seq<byte>>)
    ensures RunOfReads(tail, chunks)
         == if chunks == [] then Run([], Waiting(tail))
            else if chunks[0] == [] then Run([], Closed)
            else if Stuck(tail + chunks[0]) then Run([], Hung)
            else
              var later := RunOfReads(Tail(tail + chunks[0]), chunks[1..]);
              Run(Frames(tail + chunks[0]) + later.frames, later.fate)
  {
    hide Stuck, Frames, Tail;
  }

  /** Past `n` nothing matters any more. */
  lemma SafeWithout(ps: seq<Packet>, v: Version, a: nat, chunks: seq<seq<byte>>, n: nat)
    requires chunks == [] || n <= a
    ensures SafeBefore(ps, v, a, chunks, n)
  {
    hide EndsSafely, Concat;
  }

  lemma ConcatFront(chunks: seq<seq<byte>>)
    requires chunks != []
    ensures Concat(chunks) == chunks[0] + Concat(chunks[1..])
  {
    assert chunks == [chunks[0]] + chunks[1..];
    ConcatCons(chunks[0], chunks[1..]);
  }

  /** Reads behind the end of a stream bring no frames. */
  lemma NothingMore(sofar: seq<byte>, chunks: seq<seq<byte>>)
    ensures Concat(chunks) == [] ==>
              Frames(Tail(sofar) + Concat(chunks)) == [] && (chunks == [] || chunks[0] == [])
  {
    hide FrontOf, Frames, Tail;
    FramesEnd(Tail(sofar));
    assert Tail(sofar) + [] == Tail(sofar);
    if chunks != [] {
      ConcatFront(chunks);
    }
  }

  /** Before the end of a stream of packets there is a frame to come. */
  lemma SomethingMore(ps: seq<Packet>, v: Version, sofar: seq<byte>, rest: seq<byte>)
    requires AllCarried(ps, v) && sofar + rest == Concat(Encodings(ps, v)) && rest != []
    ensures Frames(Tail(sofar) + rest) != []
  {
    hide *;
    var s := Concat(Encodings(ps, v));
    FramesOfEncodings(ps, v, []);
    EmptyHasNoFrames();
    assert s + [] == s;
    FramesResume(sofar, rest);
    FramesAndTail(Tail(sofar) + rest);
    NoFramesNoBytes();
  }

  lemma NoFramesNoBytes()
    ensures Concat<byte>([]) == []
  {
  }

  /** A run of reads hands on no more bytes than it got. */
  lemma {:induction false} FramesAreShort(tail: seq<byte>, chunks: seq<seq<byte>>)
    ensures |Concat(RunOfReads(tail, chunks).frames)| <= |tail| + |Concat(chunks)|
    decreases |chunks|
  {
    hide *;
    UnfoldRun(tail, chunks);
    NoFramesNoBytes();
    if chunks != [] {
      ConcatFront(chunks);
      if chunks[0] != [] && !Stuck(tail + chunks[0]) {
        var data := tail + chunks[0];
        FramesAndTail(data);
        FramesAreShort(Tail(data), chunks[1..]);
        ConcatAppend(Frames(data), RunOfReads(Tail(data), chunks[1..]).frames);
      }
    }
  }
}
