/** What is reported about slices that no packet is read from, in terms of the bytes that are missing or wrong. */
module WireFaults {
  import opened Wrappers
  import opened Bytes
  import opened PacketErrors
  import opened Fields
  import opened Properties
  import opened Packets
  import opened Decoder
  import opened WireFormat
  import VarInt

  /** Neither the length nor all the bytes it announces. */
  predicate Short(s: seq<byte>) {
    |s| < 2 || |s| < 2 + HighLow(s[0], s[1])
  }

  lemma TextFaults(buf: seq<byte>, c: nat)
    requires c <= |buf|
    ensures Short(buf[c..]) <==> ParseString(buf, c) == Failure(IncompletePacket)
    ensures Short(buf[c..]) <==> ParseBinary(buf, c) == Failure(IncompletePacket)
    ensures forall data, rest :: DataThen(buf[c..], data, rest) ==>
              ParseBinary(buf, c).Success? && (!ValidUtf8(data) ==> ParseString(buf, c) == Failure(InvalidUtf8String))
  {
    forall data, rest | DataThen(buf[c..], data, rest)
      ensures ParseBinary(buf, c).Success? && ParseBinary(buf, c).value.0 == data
    {
      DataIff(buf, c, data, rest);
    }
    hide ValidUtf8, DataThen;
  }

  /** A frame cut short anywhere behind its first byte is incomplete; only the pings do not look that far. */
  lemma TruncatedIsIncomplete(first: byte, field: seq<byte>, s: seq<byte>, n: nat, v: Version)
    requires VarInt.Spells(field, |s|) && 1 <= n < 1 + |field| + |s|
    requires 0x10 <= first < 0xC0 || (0xE0 <= first < 0xF0 && n > 1)
    ensures Decode(([first] + field + s)[..n], v) == Failure(IncompletePacket)
  {
    var buf := ([first] + field + s)[..n];
    assert buf[0] == first;
    CutContent(first, field, s, n);
    hide Content, VarInt.Spells;
  }

  lemma CutContent(first: byte, field: seq<byte>, s: seq<byte>, n: nat)
    requires VarInt.Spells(field, |s|) && 1 <= n < 1 + |field| + |s|
    ensures Content(([first] + field + s)[..n]) == Failure(IncompletePacket)
  {
    var buf := ([first] + field + s)[..n];
    assert buf[1..] == (field + s)[..n - 1];
    if n <= |field| {
      assert buf[1..] == field[..n - 1];
      FieldGoesOn(field, |s|, n - 1);
      VarInt.ReadIff(buf[1..], 0, 0);
    } else {
      assert buf[1..][..|field|] == field;
      VarInt.ReadIff(buf[1..], |s|, |field|);
    }
    hide VarInt.Read, VarInt.Spells;
  }

  lemma FieldGoesOn(field: seq<byte>, len: nat, n: nat)
    requires VarInt.Spells(field, len) && n < |field|
    ensures VarInt.Continues(field[..n]) && n < 4
  {
  }

  /** Fields that are missing from a whole frame. */
  lemma MissingIsIncomplete(buf: seq<byte>, start: nat, v: Version)
    requires Whole(buf, start)
    ensures var s := buf[start..];
            && (Typed(buf[0], 1) && Short(s) ==> Decode(buf, v) == Failure(IncompletePacket))
            && (Typed(buf[0], 2) && |s| < 2 ==> Decode(buf, v) == Failure(IncompletePacket))
            && (Typed(buf[0], 3) && Short(s) ==> Decode(buf, v) == Failure(IncompletePacket))
            && (0x40 <= buf[0] < 0xC0 && |s| < 2 ==> Decode(buf, v) == Failure(IncompletePacket))
  {
    TextFaults(buf, start);
    hide Content, ParseString, Short, DataThen;
  }

  /** A quality of service without the packet identifier it calls for. */
  lemma MissingIdIsIncomplete(buf: seq<byte>, start: nat, dup: bool, q: nat, retain: bool, topic: seq<byte>,
                              rest: seq<byte>, v: Version)
    requires Whole(buf, start) && PublishFlags(buf[0], dup, q, retain) && q > 0
    requires TextThen(buf[start..], topic, rest) && |rest| < 2
    ensures Decode(buf, v) == Failure(IncompletePacket)
  {
    FlagsIff(buf[0], dup, q, retain);
    TextIff(buf, start, topic, rest);
    IdFault(q, buf, |buf| - |rest|);
    assert buf[0] / 16 == 3;
    hide Content, ParseString, TextThen, Bit, ParsePacketId, PublishFlags, QoSFrom;
  }

  lemma IdFault(q: nat, buf: seq<byte>, c: nat)
    requires q > 0 && c <= |buf| < c + 2
    ensures ParsePacketId(QoSFrom(q), buf, c, |buf|) == Failure(IncompletePacket)
  {
  }

  lemma BadTopicIsReported(buf: seq<byte>, start: nat, topic: seq<byte>, rest: seq<byte>, v: Version)
    requires Whole(buf, start) && 0x30 <= buf[0] < 0x40
    requires DataThen(buf[start..], topic, rest) && !ValidUtf8(topic)
    ensures Decode(buf, v) == Failure(InvalidUtf8String)
  {
    TextFaults(buf, start);
    hide Content, ParseString, DataThen, ValidUtf8, Bit;
  }

  /** A CONNECT of a protocol that is not known, or one that stops before its keep-alive. */
  lemma ConnectFaults(buf: seq<byte>, start: nat, name: seq<byte>, rest: seq<byte>, v: Version)
    requires Whole(buf, start) && Typed(buf[0], 1) && TextThen(buf[start..], name, rest)
    ensures rest == [] ==> Decode(buf, v) == Failure(IncompletePacket)
    ensures rest != [] && !NameThen(buf[start..], rest) ==> Decode(buf, v) == Failure(MalformedPacket)
    ensures |rest| < 4 && NameThen(buf[start..], rest) ==> Decode(buf, v) == Failure(IncompletePacket)
  {
    HeadFaults(buf, start, name, rest);
    hide Content, ParseConnectHead, TextThen, NameThen;
  }

  lemma HeadFaults(buf: seq<byte>, start: nat, name: seq<byte>, rest: seq<byte>)
    requires start <= |buf| && TextThen(buf[start..], name, rest)
    ensures rest == [] ==> ParseConnectHead(buf, start, |buf|) == Failure(IncompletePacket)
    ensures rest != [] && !NameThen(buf[start..], rest) ==>
              ParseConnectHead(buf, start, |buf|) == Failure(MalformedPacket)
    ensures |rest| < 4 && NameThen(buf[start..], rest) ==>
              ParseConnectHead(buf, start, |buf|) == Failure(IncompletePacket)
  {
    TextIff(buf, start, name, rest);
    NameIff(buf[start..], rest);
    TextIff(buf, start, PROTOCOL_NAME, rest);
    TextIff(buf, start, OLD_PROTOCOL_NAME, rest);
    hide ParseString, TextThen, NameThen;
  }

  /** However many filters came before, one without its options byte is incomplete. */
  lemma LastOptionsAreMissing(buf: seq<byte>, c: nat, filter: seq<byte>, sofar: seq<(seq<byte>, QoS)>)
    requires c <= |buf| && TextThen(buf[c..], filter, [])
    ensures ParseFilters(buf, c, |buf|, sofar) == Failure(IncompletePacket)
  {
    NothingIsNoText(filter, []);
    TextIff(buf, c, filter, []);
    hide ParseString, TextThen;
  }

  /** A filter without its options byte. */
  lemma MissingOptionsIsIncomplete(buf: seq<byte>, start: nat, filter: seq<byte>, v: Version)
    requires Whole(buf, start) && Typed(buf[0], 8) && v != V5
    requires |buf| >= start + 2 && TextThen(buf[start + 2..], filter, [])
    ensures Decode(buf, v) == Failure(IncompletePacket)
  {
    NothingIsNoText(filter, []);
    TextIff(buf, start + 2, filter, []);
    hide Content, ParseString, TextThen;
  }

  /** More than eight filters, topics or reason codes are refused. */
  lemma LongListsAreRefused(buf: seq<byte>, start: nat, id: u16, ps: seq<Property>, v: Version)
    requires Whole(buf, start) && |buf| > 1
    ensures Typed(buf[0], 8) ==>
              forall filters :: SubscribeSpelled(buf[start..], id, filters, ps, v) && |filters| > 8
                ==> Decode(buf, v) == Failure(BatchCapacityExceeded)
    ensures Typed(buf[0], 10) ==>
              forall topics :: UnsubscribeSpelled(buf[start..], id, topics, ps, v) && |topics| > 8
                ==> Decode(buf, v) == Failure(BatchCapacityExceeded)
    ensures Typed(buf[0], 9) || Typed(buf[0], 11) ==>
              forall codes :: ListAfter(buf[start..], id, ps, v, codes) && |codes| > 8
                ==> Decode(buf, v) == Failure(BatchCapacityExceeded)
  {
    hide Content, DecodeSubscribe, DecodeUnsubscribe, DecodeCodes, SubscribeSpelled, UnsubscribeSpelled, ListAfter;
    forall filters | SubscribeSpelled(buf[start..], id, filters, ps, v) && |filters| > 8
      ensures DecodeSubscribe(buf, v) == Failure(BatchCapacityExceeded)
    {
      SubscribeIsTaken(buf, start, id, filters, ps, v);
    }
    forall topics | UnsubscribeSpelled(buf[start..], id, topics, ps, v) && |topics| > 8
      ensures DecodeUnsubscribe(buf, v) == Failure(BatchCapacityExceeded)
    {
      UnsubscribeIsTaken(buf, start, id, topics, ps, v);
    }
    forall codes | ListAfter(buf[start..], id, ps, v, codes) && |codes| > 8
      ensures DecodeCodes(buf, v) == Failure(BatchCapacityExceeded)
    {
      CodesAre(buf, start, id, codes, ps, v);
    }
  }

  /** The pings need nothing but their type, and a DISCONNECT may be its type alone. */
  lemma TypesAlone(buf: seq<byte>, v: Version)
    requires buf != []
    ensures Typed(buf[0], 12) ==> Decode(buf, v) == Success(Some(PingReq))
    ensures Typed(buf[0], 13) ==> Decode(buf, v) == Success(Some(PingResp))
    ensures Typed(buf[0], 14) && |buf| == 1 ==> Decode(buf, v) == Success(Some(Disconnect(0, [])))
  {
  }

  // ---- Properties ----

  /** The length of a block is missing, malformed, or more than the slice has. */
  lemma BlockFaults(buf: seq<byte>, c: nat, len: nat, k: nat)
    requires c <= |buf|
    ensures |buf| < c + 4 && VarInt.Continues(buf[c..]) ==> ParseProperties(buf, c) == Failure(IncompletePacket)
    ensures |buf| >= c + 4 && VarInt.Continues(buf[c..][..4]) ==> ParseProperties(buf, c) == Failure(MalformedPacket)
    ensures (c + k <= |buf| < c + k + len && VarInt.Spells(buf[c..][..k], len))
              ==> ParseProperties(buf, c) == Failure(IncompletePacket)
  {
    VarInt.ReadIff(buf[c..], len, k);
    hide VarInt.Read, VarInt.Spells, VarInt.Continues, ParseEach;
  }

  /** An integer of a fixed size that runs past the end of its block. */
  lemma CutNumberIsMalformed(buf: seq<byte>, c: nat, end: nat, sofar: seq<Property>)
    requires c < end <= |buf|
    requires || (buf[c] in TWO_BYTE_IDS && end < c + 3)
             || (buf[c] in FOUR_BYTE_IDS && end < c + 5)
             || (buf[c] in BYTE_IDS && end < c + 2)
    ensures ParseEach(buf, c, end, sofar) == Failure(MalformedPacket)
  {
  }

  /** Length-prefixed data that runs past the end of its block, length included. */
  lemma CutDataIsMalformed(buf: seq<byte>, c: nat, end: nat, sofar: seq<Property>)
    requires c < end <= |buf| && buf[c] in TEXT_OR_BINARY_IDS
    requires Short(buf[c + 1..end])
    ensures ParseEach(buf, c, end, sofar) == Failure(MalformedPacket)
  {
  }

  /** The same for a pair of strings: the second may be the one that is cut. */
  lemma CutPairIsMalformed(buf: seq<byte>, c: nat, end: nat, sofar: seq<Property>)
    requires c < end <= |buf| && buf[c] == USER_PROPERTY
    requires var s := buf[c + 1..end]; Short(s) || Short(s[2 + HighLow(s[0], s[1])..])
    ensures ParseEach(buf, c, end, sofar) == Failure(MalformedPacket)
  {
    var s := buf[c + 1..end];
    if !Short(s) {
      var k: nat := 2 + HighLow(s[0], s[1]);
      assert |s[k..]| >= 2 ==> s[k..][0] == buf[c + 1 + k] && s[k..][1] == buf[c + 2 + k];
    }
  }

  /** A variable byte integer that the slice ends in, and one that is too long. */
  lemma CutIdentifierIsReported(buf: seq<byte>, c: nat, end: nat, sofar: seq<Property>)
    requires c < end <= |buf| && buf[c] == SUBSCRIPTION_IDENTIFIER
    ensures |buf| < c + 5 && VarInt.Continues(buf[c + 1..]) ==>
              ParseEach(buf, c, end, sofar) == Failure(IncompletePacket)
    ensures |buf| >= c + 5 && VarInt.Continues(buf[c + 1..][..4]) ==>
              ParseEach(buf, c, end, sofar) == Failure(MalformedPacket)
  {
    VarInt.ReadIff(buf[c + 1..], 0, 0);
    hide VarInt.Read, VarInt.Continues;
  }
}
