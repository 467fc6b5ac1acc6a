/** Streaming a payload of a publish in pieces (crates/mqtt-embedded/src/stream_writer.rs, transport.rs). */
module StreamWriter {
  import opened Wrappers
  import opened Bytes
  import opened PacketErrors

  datatype MqttError =
    | NotConnected
    | BufferTooSmall
    | InflightQueueFull
    | BatchCapacityExceeded
    | InvalidResponse
    | ConnectionRefused(code: byte)
    | Protocol(error: PacketError)

  /** `From<PacketError>`. */
  function FromPacketError(e: PacketError): MqttError {
    match e
    case BufferTooSmall => MqttError.BufferTooSmall
    case BatchCapacityExceeded => MqttError.BatchCapacityExceeded
    case _ => Protocol(e)
  }

  /** A transport that never fails; `wire` is everything sent. */
  class Transport {
    var wire: seq<byte>

    constructor ()
      ensures wire == []
    {
      wire := [];
    }

    method Send(data: seq<byte>)
      modifies this
      ensures wire == old(wire) + data
    {
      wire := wire + data;
    }

    /** `send_vectored`: the slices one by one, empty ones skipped. */
    method SendVectored(slices: seq<seq<byte>>)
      modifies this
      ensures wire == old(wire) + Concat(slices)
    {
      assert slices[0..] == slices;
      for i := 0 to |slices|
        invariant wire + Concat(slices[i..]) == old(wire) + Concat(slices)
      {
        assert slices[i..] == [slices[i]] + slices[i + 1..];
        ConcatCons(slices[i], slices[i + 1..]);
        Associative(wire, slices[i], Concat(slices[i + 1..]));
        if slices[i] != [] {
          Send(slices[i]);
        }
      }
      assert slices[|slices|..] == [] && wire + [] == wire;
    }
  }

  /** Two errors of the codec become errors of the client, all others are passed on inside `Protocol`. */
  lemma CodecErrorsAre(e: PacketError)
    ensures FromPacketError(PacketError.BufferTooSmall) == MqttError.BufferTooSmall
    ensures FromPacketError(PacketError.BatchCapacityExceeded) == MqttError.BatchCapacityExceeded
    ensures e !in {PacketError.BufferTooSmall, PacketError.BatchCapacityExceeded} <==> FromPacketError(e) == Protocol(e)
  {
  }

  function TotalLength(slices: seq<seq<byte>>): (n: nat)
    ensures n == |Concat(slices)|
  {
    if slices == [] then 0 else |slices[0]| + TotalLength(slices[1..])
  }

  /** A piece is taken whole or refused whole. */
  function Taken(piece: seq<byte>, remaining: nat): seq<byte> {
    if |piece| <= remaining then piece else []
  }

  class MqttStreamWriter {
    const transport: Transport
    const totalLen: nat
    var bytesRemaining: nat
    /** What was on the wire when the writer was made, and the payload bytes sent since. */
    ghost const start: seq<byte>
    ghost var written: seq<byte>

    /** The counter is what the declared total still misses of the bytes that are on the wire. */
    ghost predicate Valid()
      reads this, transport
    {
      transport.wire == start + written && |written| + bytesRemaining == totalLen
    }

    constructor (transport: Transport, totalPayloadLen: nat)
      ensures Valid() && this.transport == transport && totalLen == totalPayloadLen
      ensures start == transport.wire && written == []
    {
      this.transport := transport;
      totalLen, bytesRemaining := totalPayloadLen, totalPayloadLen;
      start, written := transport.wire, [];
      new;
      assert start + [] == start;
    }

    /** `write_chunk`, and `write_dma_slice`, which only calls it: taken whole when it still fits, else refused. */
    method WriteChunk(chunk: seq<byte>) returns (r: Result<(), MqttError>)
      requires Valid()
      modifies this, transport
      ensures Valid()
      ensures r == if |old(written) + chunk| <= totalLen then Success(()) else Failure(MqttError.BufferTooSmall)
      ensures written == if r.Success? then old(written) + chunk else old(written)
    {
      if |chunk| > bytesRemaining {
        assert written + [] == written;
        return Failure(MqttError.BufferTooSmall);
      }
      Associative(start, written, chunk);
      transport.Send(chunk);
      bytesRemaining := bytesRemaining - |chunk|;
      written := written + chunk;
      return Success(());
    }

    method WriteDmaVectored(slices: seq<seq<byte>>) returns (r: Result<(), MqttError>)
      requires Valid()
      modifies this, transport
      ensures Valid()
      ensures r == if |old(written) + Concat(slices)| <= totalLen then Success(())
                   else Failure(MqttError.BufferTooSmall)
      ensures written == if r.Success? then old(written) + Concat(slices) else old(written)
    {
      var total := TotalLength(slices);
      if total > bytesRemaining {
        assert written + [] == written;
        return Failure(MqttError.BufferTooSmall);
      }
      Associative(start, written, Concat(slices));
      transport.SendVectored(slices);
      bytesRemaining := bytesRemaining - total;
      written := written + Concat(slices);
      return Success(());
    }

    /** `finish`: succeeds exactly when the payload bytes on the wire make up the declared total. */
    method Finish() returns (r: Result<(), MqttError>)
      requires Valid()
      ensures r.Success? <==> |transport.wire| == |start| + totalLen
      ensures r.Failure? ==> r.error == Protocol(IncompletePacket) && |transport.wire| < |start| + totalLen
    {
      return if bytesRemaining == 0 then Success(()) else Failure(Protocol(IncompletePacket));
    }

    /** Any writes one after another, each a chunk or the slices of a vectored write. */
    method WriteAll(pieces: seq<seq<byte>>) returns (r: Result<(), MqttError>)
      requires Valid() && written == []
      modifies this, transport
      ensures Valid() && written == AllTaken(pieces, totalLen)
      ensures r.Success? <==> |AllTaken(pieces, totalLen)| == totalLen
    {
      assert pieces[0..] == pieces && [] + AllTaken(pieces, totalLen) == AllTaken(pieces, totalLen);
      hide AllTaken;
      for i := 0 to |pieces|
        invariant Valid() && written + AllTaken(pieces[i..], totalLen - |written|) == AllTaken(pieces, totalLen)
      {
        TakenStep(written, pieces, i, totalLen);
        var _ := WriteChunk(pieces[i]);
      }
      NothingTaken(written, pieces, totalLen);
      r := Finish();
    }
  }

  // ---- Any sequence of writes ----

  /** What a sequence of writes puts on the wire; a vectored write is the piece its slices make up. */
  function AllTaken(pieces: seq<seq<byte>>, remaining: nat): (s: seq<byte>)
    ensures |s| <= remaining
    decreases |pieces|
  {
    if pieces == [] then []
    else Taken(pieces[0], remaining) + AllTaken(pieces[1..], remaining - |Taken(pieces[0], remaining)|)
  }

  lemma TakenStep(written: seq<byte>, pieces: seq<seq<byte>>, i: nat, total: nat)
    requires i < |pieces| && |written| <= total
    ensures var now := if |written + pieces[i]| <= total then written + pieces[i] else written;
            written + AllTaken(pieces[i..], total - |written|) == now + AllTaken(pieces[i + 1..], total - |now|)
  {
    assert pieces[i..][1..] == pieces[i + 1..];
    var taken := Taken(pieces[i], total - |written|);
    Associative(written, taken, AllTaken(pieces[i + 1..], total - |written| - |taken|));
    assert written + [] == written;
  }

  lemma NothingTaken(written: seq<byte>, pieces: seq<seq<byte>>, total: nat)
    requires |written| <= total
    ensures written + AllTaken(pieces[|pieces|..], total - |written|) == written
  {
  }

  /** Nothing is refused as long as the pieces fit the declared total. */
  lemma {:induction false} FittingPiecesAreTaken(pieces: seq<seq<byte>>, remaining: nat)
    requires |Concat(pieces)| <= remaining
    ensures AllTaken(pieces, remaining) == Concat(pieces)
    decreases |pieces|
  {
    if pieces != [] {
      FittingPiecesAreTaken(pieces[1..], remaining - |pieces[0]|);
    }
  }
}
