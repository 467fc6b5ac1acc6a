/** Typed sensor payloads (`SensorDataType`, crates/mqtt-tokio/src/stream.rs). Floats are words of 8 or 4 bytes. */
module SensorData {
  import opened Wrappers
  import opened Bytes
  import opened StreamProducer

  datatype SensorDataType =
    | Raw(bytes: seq<byte>)
    | TimeSeries(values: seq<seq<byte>>)
    | TimeSeriesF32(values: seq<seq<byte>>)
    | Json(text: seq<byte>)
    | AudioPcm(sampleRate: u32, channels: byte, data: seq<byte>)
    | ImageFrame(mime: seq<byte>, data: seq<byte>)

  const TAG_RAW: byte := 1
  const TAG_TIMESERIES_F64: byte := 2
  const TAG_TIMESERIES_F32: byte := 3
  const TAG_JSON: byte := 4
  const TAG_AUDIO_PCM: byte := 5
  const TAG_IMAGE_FRAME: byte := 6

  predicate Words(values: seq<seq<byte>>, size: nat) {
    forall i :: 0 <= i < |values| ==> |values[i]| == size
  }

  /** Values the source's types can hold. */
  predicate Typed(d: SensorDataType) {
    match d
    case TimeSeries(values) => Words(values, 8)
    case TimeSeriesF32(values) => Words(values, 4)
    case Json(text) => ValidUtf8(text)
    case ImageFrame(mime, _) => ValidUtf8(mime)
    case _ => true
  }

  /** `String::from_utf8_lossy` keeps valid text. */
  ghost predicate KeepsText(lossy: seq<byte> -> seq<byte>) {
    forall s :: ValidUtf8(s) ==> lossy(s) == s
  }

  /** Counts and lengths are cut to two bytes, and to one for the MIME type. */
  function Encode(d: SensorDataType): seq<byte> {
    match d
    case Raw(bytes) => [TAG_RAW] + bytes
    case TimeSeries(values) => [TAG_TIMESERIES_F64] + BigEndian16(|values| % 0x1_0000) + Concat<byte>(values)
    case TimeSeriesF32(values) => [TAG_TIMESERIES_F32] + BigEndian16(|values| % 0x1_0000) + Concat<byte>(values)
    case Json(text) => [TAG_JSON] + text
    case AudioPcm(sampleRate, channels, data) => [TAG_AUDIO_PCM] + BigEndian(sampleRate, 4) + [channels] + data
    case ImageFrame(mime, data) => [TAG_IMAGE_FRAME] + [|mime| % 0x100] + mime + data
  }

  function TakeWords(s: seq<byte>, size: nat, count: nat): (values: seq<seq<byte>>)
    requires |s| >= count * size
    ensures |values| == count
    decreases count
  {
    if count == 0 then [] else
      assert count * size == size + (count - 1) * size;
      [s[..size]] + TakeWords(s[size..], size, count - 1)
  }

  /** The values behind a tag, or `None` when the payload is too short for its count. */
  function Series(slice: seq<byte>, size: nat): (values: Option<seq<seq<byte>>>) {
    if |slice| < 2 then None
    else
      var count := FromBigEndian16(slice[0], slice[1]);
      if |slice| - 2 < count * size then None else Some(TakeWords(slice[2..], size, count))
  }

  /** Whatever does not parse is raw data, tag included. */
  function Decode(payload: seq<byte>, lossy: seq<byte> -> seq<byte>): SensorDataType {
    if payload == [] then Raw(payload)
    else
      var slice := payload[1..];
      match payload[0]
      case 1 => Raw(slice)
      case 2 => if Series(slice, 8).Some? then TimeSeries(Series(slice, 8).value) else Raw(payload)
      case 3 => if Series(slice, 4).Some? then TimeSeriesF32(Series(slice, 4).value) else Raw(payload)
      case 4 => Json(lossy(slice))
      case 5 =>
        if |slice| < 5 then Raw(payload)
        else
          WordIsSmall(slice[..4]);
          AudioPcm(FromBigEndian(slice[..4]), slice[4], slice[5..])
      case 6 =>
        if |slice| < 1 || |slice| - 1 < slice[0] then Raw(payload)
        else ImageFrame(lossy(slice[1..1 + slice[0]]), slice[1 + slice[0]..])
      case _ => Raw(payload)
  }

  lemma Pow256Of4()
    ensures Pow256(4) == 0x1_0000_0000
  {
    assert Pow256(2) == 0x1_0000;
  }

  lemma {:induction false} BigEndianBound(s: seq<byte>)
    ensures FromBigEndian(s) < Pow256(|s|)
  {
    if s != [] {
      BigEndianBound(s[..|s| - 1]);
    }
  }

  lemma WordIsSmall(s: seq<byte>)
    requires |s| == 4
    ensures FromBigEndian(s) < 0x1_0000_0000
  {
    Pow256Of4();
    BigEndianBound(s);
  }

  /** The loop of `decode` that takes `count` words off the front of the payload. */
  method ReadWords(payload: seq<byte>, size: nat, count: nat) returns (vals: seq<seq<byte>>)
    requires |payload| >= count * size
    ensures vals == TakeWords(payload, size, count)
  {
    vals := [];
    var slice := payload;
    for i := 0 to count
      invariant |slice| >= (count - i) * size
      invariant vals + TakeWords(slice, size, count - i) == TakeWords(payload, size, count)
    {
      assert (count - i) * size == size + (count - i - 1) * size;
      Associative(vals, [slice[..size]], TakeWords(slice[size..], size, count - i - 1));
      vals := vals + [slice[..size]];
      slice := slice[size..];
    }
    assert vals + [] == vals;
  }

  /** The loop of `encode` that puts the words behind tag and count. */
  method PutWords(tag: byte, values: seq<seq<byte>>) returns (buf: seq<byte>)
    ensures buf == [tag] + BigEndian16(|values| % 0x1_0000) + Concat<byte>(values)
  {
    ghost var all := [tag] + BigEndian16(|values| % 0x1_0000) + Concat<byte>(values);
    buf := [tag] + BigEndian16(|values| % 0x1_0000);
    assert values[0..] == values;
    for i := 0 to |values|
      invariant buf + Concat<byte>(values[i..]) == all
    {
      assert values[i..] == [values[i]] + values[i + 1..];
      ConcatCons<byte>(values[i], values[i + 1..]);
      Associative(buf, values[i], Concat<byte>(values[i + 1..]));
      buf := buf + values[i];
    }
    assert values[|values|..] == [] && buf + [] == buf;
  }

  /** `SensorDataType::encode`. */
  method EncodePayload(d: SensorDataType) returns (buf: seq<byte>)
    ensures buf == Encode(d)
  {
    match d {
      case Raw(bytes) => return [TAG_RAW] + bytes;
      case TimeSeries(values) => buf := PutWords(TAG_TIMESERIES_F64, values);
      case TimeSeriesF32(values) => buf := PutWords(TAG_TIMESERIES_F32, values);
      case Json(text) => return [TAG_JSON] + text;
      case AudioPcm(sampleRate, channels, data) =>
        return [TAG_AUDIO_PCM] + BigEndian(sampleRate, 4) + [channels] + data;
      case ImageFrame(mime, data) => return [TAG_IMAGE_FRAME] + [|mime| % 0x100] + mime + data;
    }
  }

  method ReadSeries(slice: seq<byte>, size: nat) returns (values: Option<seq<seq<byte>>>)
    ensures values == Series(slice, size)
  {
    if |slice| >= 2 {
      var count: nat := FromBigEndian16(slice[0], slice[1]);
      if |slice| - 2 >= count * size {
        var vals := ReadWords(slice[2..], size, count);
        return Some(vals);
      }
    }
    return None;
  }

  /** `SensorDataType::decode`. */
  method DecodePayload(payload: seq<byte>, lossy: seq<byte> -> seq<byte>) returns (d: SensorDataType)
    ensures d == Decode(payload, lossy)
  {
    if payload == [] {
      return Raw(payload);
    }
    var slice := payload[1..];
    match payload[0] {
      case 1 => return Raw(slice);
      case 2 =>
        var values := ReadSeries(slice, 8);
        return if values.Some? then TimeSeries(values.value) else Raw(payload);
      case 3 =>
        var values := ReadSeries(slice, 4);
        return if values.Some? then TimeSeriesF32(values.value) else Raw(payload);
      case 4 => return Json(lossy(slice));
      case 5 =>
        if |slice| >= 5 {
          WordIsSmall(slice[..4]);
          return AudioPcm(FromBigEndian(slice[..4]), slice[4], slice[5..]);
        }
        return Raw(payload);
      case 6 =>
        if |slice| >= 1 && |slice| - 1 >= slice[0] {
          return ImageFrame(lossy(slice[1..1 + slice[0]]), slice[1 + slice[0]..]);
        }
        return Raw(payload);
      case _ => return Raw(payload);
    }
  }

  // ---- The payload, byte by byte ----

  /** One byte says what kind of data follows. */
  lemma FirstByteIsKind(d: SensorDataType)
    ensures Encode(d)[0] == match d
                            case Raw(_) => 0x01
                            case TimeSeries(_) => 0x02
                            case TimeSeriesF32(_) => 0x03
                            case Json(_) => 0x04
                            case AudioPcm(_, _, _) => 0x05
                            case ImageFrame(_, _) => 0x06
  {
  }

  /** The counts and the sample rate come with their highest byte first. */
  lemma HeadersAre(d: SensorDataType)
    ensures var s := Encode(d);
            && (d.TimeSeries? || d.TimeSeriesF32? ==>
                  HighLow(s[1], s[2]) == |d.values| % 0x1_0000 && s[3..] == Concat<byte>(d.values))
            && (d.ImageFrame? ==> s[1] == |d.mime| % 0x100 && s[2..] == d.mime + d.data)
            && (d.AudioPcm? ==>
                  && HighLow4(s[1], s[2], s[3], s[4]) == d.sampleRate
                  && s[5] == d.channels && s[6..] == d.data)
            && (d.Raw? ==> s[1..] == d.bytes) && (d.Json? ==> s[1..] == d.text)
  {
    hide *;
    match d
    case AudioPcm(rate, channels, data) => AudioHeader(rate, channels, data);
    case ImageFrame(mime, data) => ImageHeader(mime, data);
    case TimeSeries(values) => TimeSeriesHeader(values);
    case TimeSeriesF32(values) => TimeSeriesF32Header(values);
    case Raw(bytes) => PlainBodies(bytes);
    case Json(text) => PlainBodies(text);
  }

  lemma PlainBodies(bytes: seq<byte>)
    ensures |Encode(Raw(bytes))| == |Encode(Json(bytes))| == 1 + |bytes|
    ensures Encode(Raw(bytes))[1..] == bytes && Encode(Json(bytes))[1..] == bytes
  {
  }

  lemma ImageHeader(mime: seq<byte>, data: seq<byte>)
    ensures var s := Encode(ImageFrame(mime, data));
            |s| == 2 + |mime| + |data| && s[1] == |mime| % 0x100 && s[2..] == mime + data
  {
    ImageBytes(TAG_IMAGE_FRAME, |mime| % 0x100, mime, data);
  }

  lemma ImageBytes(tag: byte, n: byte, mime: seq<byte>, data: seq<byte>)
    ensures var s := [tag] + [n] + mime + data;
            |s| == 2 + |mime| + |data| && s[1] == n && s[2..] == mime + data
  {
  }

  lemma TimeSeriesHeader(values: seq<seq<byte>>)
    ensures var s := Encode(TimeSeries(values));
            |s| >= 3 && HighLow(s[1], s[2]) == |values| % 0x1_0000 && s[3..] == Concat<byte>(values)
  {
    SeriesHeader(TAG_TIMESERIES_F64, |values| % 0x1_0000, Concat<byte>(values));
    hide BigEndian16, HighLow, Concat;
  }

  lemma TimeSeriesF32Header(values: seq<seq<byte>>)
    ensures var s := Encode(TimeSeriesF32(values));
            |s| >= 3 && HighLow(s[1], s[2]) == |values| % 0x1_0000 && s[3..] == Concat<byte>(values)
  {
    SeriesHeader(TAG_TIMESERIES_F32, |values| % 0x1_0000, Concat<byte>(values));
    hide BigEndian16, HighLow, Concat;
  }

  lemma AudioHeader(rate: u32, channels: byte, data: seq<byte>)
    ensures var s := Encode(AudioPcm(rate, channels, data));
            |s| == 6 + |data| && HighLow4(s[1], s[2], s[3], s[4]) == rate && s[5] == channels && s[6..] == data
  {
    RateBytes(rate);
    hide BigEndian, HighLow4;
    var s := Encode(AudioPcm(rate, channels, data));
    assert s[1] == BigEndian(rate, 4)[0] && s[2] == BigEndian(rate, 4)[1];
    assert s[3] == BigEndian(rate, 4)[2] && s[4] == BigEndian(rate, 4)[3];
    assert s[6..] == data;
  }

  lemma SeriesHeader(tag: byte, n: u16, words: seq<byte>)
    ensures var s := [tag] + BigEndian16(n) + words; |s| >= 3 && HighLow(s[1], s[2]) == n && s[3..] == words
  {
    CountBytes(n);
    hide BigEndian16, HighLow;
    var s := [tag] + BigEndian16(n) + words;
    assert s[1] == BigEndian16(n)[0] && s[2] == BigEndian16(n)[1] && s[3..] == words;
  }

  lemma CountBytes(n: u16)
    ensures var s := BigEndian16(n); HighLow(s[0], s[1]) == n
  {
  }

  lemma RateBytes(rate: u32)
    ensures var s := BigEndian(rate, 4); HighLow4(s[0], s[1], s[2], s[3]) == rate
  {
    var a, b, c := rate / 256, rate / 256 / 256, rate / 256 / 256 / 256;
    assert BigEndian(c, 1) == [c % 256] by { assert BigEndian(c / 256, 0) == []; }
    assert BigEndian(b, 2) == [c % 256, b % 256];
    assert BigEndian(a, 3) == [c % 256, b % 256, a % 256];
    assert BigEndian(rate, 4) == [c % 256, b % 256, a % 256, rate % 256];
  }

  /** Nothing can be made of the payload: no kind, a kind that is not known, or too few bytes for its kind. */
  predicate Unparsable(payload: seq<byte>) {
    || payload == []
    || payload[0] == 0 || payload[0] > 6
    || (payload[0] == 2 && (|payload| < 3 || |payload| < 3 + 8 * CountIn(payload)))
    || (payload[0] == 3 && (|payload| < 3 || |payload| < 3 + 4 * CountIn(payload)))
    || (payload[0] == 5 && |payload| < 6)
    || (payload[0] == 6 && (|payload| < 2 || |payload| - 2 < payload[1]))
  }

  function CountIn(payload: seq<byte>): nat
    requires |payload| >= 3
  {
    HighLow(payload[1], payload[2])
  }

  /** Exactly such a payload comes back whole as raw data. */
  lemma UnparsableIsRaw(payload: seq<byte>, lossy: seq<byte> -> seq<byte>)
    ensures Decode(payload, lossy) == Raw(payload) <==> Unparsable(payload)
  {
    hide TakeWords;
    if payload != [] && payload[0] == 1 {
      assert |payload[1..]| < |payload|;
    }
  }

  lemma {:induction false} WordsAreThere(s: seq<byte>, size: nat, count: nat, i: nat)
    requires |s| >= count * size && i < count
    ensures (i + 1) * size <= |s| && TakeWords(s, size, count)[i] == s[i * size..(i + 1) * size]
    decreases count
  {
    assert (i + 1) * size == i * size + size && (i + 1) * size <= count * size;
    assert count * size == size + (count - 1) * size;
    if i > 0 {
      WordsAreThere(s[size..], size, count - 1, i - 1);
      assert i * size == (i - 1) * size + size;
      assert s[size..][(i - 1) * size..i * size] == s[i * size..(i + 1) * size];
    }
  }

  /** Anything else is read by its kind. */
  lemma ParsedByKind(payload: seq<byte>, lossy: seq<byte> -> seq<byte>)
    requires !Unparsable(payload)
    ensures var d := Decode(payload, lossy);
            match payload[0]
            case 1 => d == Raw(payload[1..])
            case 2 => && d.TimeSeries? && |d.values| == CountIn(payload)
                      && forall i :: 0 <= i < |d.values| ==> d.values[i] == WordAt(payload, 8, i)
            case 3 => && d.TimeSeriesF32? && |d.values| == CountIn(payload)
                      && forall i :: 0 <= i < |d.values| ==> d.values[i] == WordAt(payload, 4, i)
            case 4 => d == Json(lossy(payload[1..]))
            case 5 => && d.AudioPcm? && d.channels == payload[5] && d.data == payload[6..]
                      && d.sampleRate == HighLow4(payload[1], payload[2], payload[3], payload[4])
            case _ => d == ImageFrame(lossy(payload[2..2 + payload[1]]), payload[2 + payload[1]..])
  {
    match payload[0]
    case 2 => SeriesIsThere(payload, 8);
    case 3 => SeriesIsThere(payload, 4);
    case 5 => RateIsThere(payload[1..]);
              hide FromBigEndian;
              assert payload[1..][5..] == payload[6..];
    case 6 =>
      assert payload[1..][1..1 + payload[1]] == payload[2..2 + payload[1]];
      assert payload[1..][1 + payload[1]..] == payload[2 + payload[1]..];
    case _ =>
  }

  /** Word `i` behind tag and count. */
  function WordAt(payload: seq<byte>, size: nat, i: nat): seq<byte> {
    if 3 + i * size <= 3 + (i + 1) * size <= |payload| then payload[3 + i * size..3 + (i + 1) * size] else []
  }

  lemma SeriesIsThere(payload: seq<byte>, size: nat)
    requires size in {4, 8} && |payload| >= 3 && |payload| >= 3 + size * CountIn(payload)
    ensures Series(payload[1..], size).Some?
    ensures var values := Series(payload[1..], size).value;
            |values| == CountIn(payload) && forall i :: 0 <= i < |values| ==> values[i] == WordAt(payload, size, i)
  {
    hide *;
    var count, rest := CountIn(payload), payload[1..][2..];
    SeriesUnfolds(payload, size);
    forall i | 0 <= i < count ensures TakeWords(rest, size, count)[i] == WordAt(payload, size, i) {
      WordIsThere(payload, size, count, i);
    }
  }

  lemma SeriesUnfolds(payload: seq<byte>, size: nat)
    requires size in {4, 8} && |payload| >= 3 && |payload| >= 3 + size * CountIn(payload)
    ensures var count, rest := CountIn(payload), payload[1..][2..];
            |rest| >= count * size && Series(payload[1..], size) == Some(TakeWords(rest, size, count))
            && |TakeWords(rest, size, count)| == count
  {
    assert FromBigEndian16(payload[1..][0], payload[1..][1]) == CountIn(payload);
    hide TakeWords, FromBigEndian16;
  }

  lemma WordIsThere(payload: seq<byte>, size: nat, count: nat, i: nat)
    requires |payload| >= 3 && |payload[1..][2..]| >= count * size && i < count
    ensures TakeWords(payload[1..][2..], size, count)[i] == WordAt(payload, size, i)
  {
    var rest := payload[1..][2..];
    WordsAreThere(rest, size, count, i);
    hide TakeWords;
    assert (i + 1) * size == i * size + size;
    assert rest == payload[3..];
    assert rest[i * size..(i + 1) * size] == payload[3 + i * size..3 + (i + 1) * size];
  }

  lemma RateIsThere(slice: seq<byte>)
    requires |slice| >= 4
    ensures FromBigEndian(slice[..4])
         == HighLow4(slice[0], slice[1], slice[2], slice[3])
  {
    var s := slice[..4];
    assert s[..3][..2][..1][..0] == [] && s[..3][..2] == slice[..2];
    assert s[..3] == slice[..3] && slice[..2][..1] == slice[..1];
    assert FromBigEndian(slice[..1]) == slice[0] by { assert slice[..1][..0] == []; }
    assert FromBigEndian(slice[..2]) == HighLow(slice[0], slice[1]);
    assert FromBigEndian(slice[..3]) == 256 * FromBigEndian(slice[..2]) + slice[2] by {
      assert slice[..3][..2] == slice[..2];
    }
    assert FromBigEndian(s) == 256 * FromBigEndian(slice[..3]) + slice[3];
  }

  // ---- Round trip ----

  /** The length fields hold the true lengths. */
  predicate CountsFit(d: SensorDataType) {
    match d
    case TimeSeries(values) => |values| <= 0xFFFF
    case TimeSeriesF32(values) => |values| <= 0xFFFF
    case ImageFrame(mime, _) => |mime| <= 0xFF
    case _ => true
  }

  lemma {:induction false} WordsBack(values: seq<seq<byte>>, size: nat, count: nat)
    requires Words(values, size) && count <= |values|
    ensures |Concat<byte>(values)| >= count * size && TakeWords(Concat<byte>(values), size, count) == values[..count]
    decreases count
  {
    if count > 0 {
      WordsBack(values[1..], size, count - 1);
      var s := Concat<byte>(values);
      assert count * size == size + (count - 1) * size;
      assert s == values[0] + Concat<byte>(values[1..]);
      Halves(values[0], Concat<byte>(values[1..]));
      assert values[..count] == [values[0]] + values[1..][..count - 1];
    }
  }

  /** A series comes back cut to the count its two bytes can hold. */
  lemma SeriesBack(values: seq<seq<byte>>, size: nat)
    requires Words(values, size)
    ensures Series(BigEndian16(|values| % 0x1_0000) + Concat<byte>(values), size)
         == Some(values[..|values| % 0x1_0000])
  {
    hide *;
    var n := |values| % 0x1_0000;
    CountedSeriesBack(values, size, n);
  }

  lemma CountedSeriesBack(values: seq<seq<byte>>, size: nat, n: u16)
    requires Words(values, size) && n <= |values|
    ensures Series(BigEndian16(n) + Concat<byte>(values), size) == Some(values[..n])
  {
    WordsBack(values, size, n);
    hide *;
    SeriesOf(Concat<byte>(values), size, n);
  }

  lemma SeriesOf(words: seq<byte>, size: nat, n: u16)
    requires |words| >= n * size
    ensures Series(BigEndian16(n) + words, size) == Some(TakeWords(words, size, n))
  {
    CountBack(n, words);
    hide TakeWords, FromBigEndian16, BigEndian16;
  }

  lemma CountBack(n: u16, rest: seq<byte>)
    ensures var s := BigEndian16(n) + rest; s[2..] == rest && FromBigEndian16(s[0], s[1]) == n
  {
  }

  lemma AudioBack(sampleRate: u32, channels: byte, data: seq<byte>, lossy: seq<byte> -> seq<byte>)
    ensures Decode(Encode(AudioPcm(sampleRate, channels, data)), lossy) == AudioPcm(sampleRate, channels, data)
  {
    var rate, payload := BigEndian(sampleRate, 4), Encode(AudioPcm(sampleRate, channels, data));
    hide BigEndian;
    assert payload[1..][..4] == rate && payload[1..][4] == channels && payload[1..][5..] == data;
    Pow256Of4();
    BigEndianBack(sampleRate, 4);
  }

  lemma ImageBack(mime: seq<byte>, data: seq<byte>, lossy: seq<byte> -> seq<byte>)
    ensures var n := |mime| % 0x100;
            Decode(Encode(ImageFrame(mime, data)), lossy) == ImageFrame(lossy(mime[..n]), mime[n..] + data)
  {
    var n := |mime| % 0x100;
    var slice := Encode(ImageFrame(mime, data))[1..];
    assert slice == [n] + mime + data;
    assert slice[1..1 + n] == mime[..n] && slice[1 + n..] == mime[n..] + data;
  }

  lemma SameSeriesIff(values: seq<seq<byte>>)
    ensures values[..|values| % 0x1_0000] == values <==> |values| <= 0xFFFF
  {
    if |values| > 0xFFFF {
      assert |values[..|values| % 0x1_0000]| < |values|;
    } else {
      assert |values| % 0x1_0000 == |values|;
    }
  }

  lemma TimeSeriesIff(values: seq<seq<byte>>, lossy: seq<byte> -> seq<byte>)
    requires Words(values, 8)
    ensures Decode(Encode(TimeSeries(values)), lossy) == TimeSeries(values) <==> |values| <= 0xFFFF
  {
    hide Series, BigEndian16;
    assert Encode(TimeSeries(values))[1..] == BigEndian16(|values| % 0x1_0000) + Concat<byte>(values);
    SeriesBack(values, 8);
    SameSeriesIff(values);
  }

  lemma TimeSeriesF32Iff(values: seq<seq<byte>>, lossy: seq<byte> -> seq<byte>)
    requires Words(values, 4)
    ensures Decode(Encode(TimeSeriesF32(values)), lossy) == TimeSeriesF32(values) <==> |values| <= 0xFFFF
  {
    hide Series, BigEndian16;
    assert Encode(TimeSeriesF32(values))[1..] == BigEndian16(|values| % 0x1_0000) + Concat<byte>(values);
    SeriesBack(values, 4);
    SameSeriesIff(values);
  }

  lemma ImageIff(mime: seq<byte>, data: seq<byte>, lossy: seq<byte> -> seq<byte>)
    requires lossy(mime) == mime
    ensures Decode(Encode(ImageFrame(mime, data)), lossy) == ImageFrame(mime, data) <==> |mime| <= 0xFF
  {
    ImageBack(mime, data, lossy);
    hide Encode, Decode;
    var n := |mime| % 0x100;
    if |mime| <= 0xFF {
      assert mime[..n] == mime && mime[n..] + data == data;
    } else {
      assert |mime[n..] + data| > |data|;
    }
  }

  lemma PlainBack(bytes: seq<byte>, lossy: seq<byte> -> seq<byte>)
    ensures Decode(Encode(Raw(bytes)), lossy) == Raw(bytes) && Decode(Encode(Json(bytes)), lossy) == Json(lossy(bytes))
  {
    assert Encode(Raw(bytes))[1..] == bytes && Encode(Json(bytes))[1..] == bytes;
  }

  /** Typed data survives encoding and decoding exactly when its counts fit their fields. */
  lemma RoundTripsIff(d: SensorDataType, lossy: seq<byte> -> seq<byte>)
    requires Typed(d) && KeepsText(lossy)
    ensures Decode(Encode(d), lossy) == d <==> CountsFit(d)
  {
    hide ValidUtf8, Encode, Decode;
    match d
    case Raw(bytes) => PlainBack(bytes, lossy);
    case TimeSeries(values) => TimeSeriesIff(values, lossy);
    case TimeSeriesF32(values) => TimeSeriesF32Iff(values, lossy);
    case Json(text) => PlainBack(text, lossy);
    case AudioPcm(sampleRate, channels, data) => AudioBack(sampleRate, channels, data, lossy);
    case ImageFrame(mime, data) => ImageIff(mime, data, lossy);
  }
}
