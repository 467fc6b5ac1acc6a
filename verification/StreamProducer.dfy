/** Producers of the sequenced data stream (crates/mqtt-tokio/src/stream.rs): ids, journal, replay, wire format. */
module StreamProducer {
  import opened Wrappers
  import opened Bytes
  import opened Stream
  import opened StreamOrder

  // ---- Wire format ----

  /** `n` in `k` big-endian bytes (`put_u64`, `put_u32`, `put_u16`). */
  function BigEndian(n: nat, k: nat): (s: seq<byte>)
    ensures |s| == k
  {
    if k == 0 then [] else BigEndian(n / 256, k - 1) + [n % 256]
  }

  function FromBigEndian(s: seq<byte>): nat {
    if s == [] then 0 else 256 * FromBigEndian(s[..|s| - 1]) + s[|s| - 1]
  }

  function Pow256(k: nat): (p: nat)
    ensures p > 0
  {
    if k == 0 then 1 else 256 * Pow256(k - 1)
  }

  lemma {:induction false} BigEndianBack(n: nat, k: nat)
    requires n < Pow256(k)
    ensures FromBigEndian(BigEndian(n, k)) == n
  {
    if k > 0 {
      BigEndianBack(n / 256, k - 1);
      assert BigEndian(n, k)[..k - 1] == BigEndian(n / 256, k - 1);
    }
  }

  function EncodeWire(c: Chunk): seq<byte> {
    BigEndian(c.seqId, 8) + BigEndian(c.timestamp, 8) + c.payload
  }

  /** Short data counts as unsequenced. */
  function DecodeWire(data: seq<byte>): Chunk {
    if |data| < 16 then Chunk(0, 0, data)
    else Chunk(FromBigEndian(data[..8]), FromBigEndian(data[8..16]), data[16..])
  }

  predicate Fits64(c: Chunk) {
    c.seqId < 0x1_0000_0000_0000_0000 && c.timestamp < 0x1_0000_0000_0000_0000
  }

  lemma Pow256Of8()
    ensures Pow256(8) == 0x1_0000_0000_0000_0000
  {
    assert Pow256(2) == 0x1_0000;
    assert Pow256(4) == 0x1_0000_0000;
    assert Pow256(6) == 0x1_0000_0000_0000;
  }

  lemma WireBack(c: Chunk)
    requires Fits64(c)
    ensures DecodeWire(EncodeWire(c)) == c
  {
    Pow256Of8();
    BigEndianBack(c.seqId, 8);
    BigEndianBack(c.timestamp, 8);
    var id, time := BigEndian(c.seqId, 8), BigEndian(c.timestamp, 8);
    var data := EncodeWire(c);
    assert data[..8] == id && data[8..16] == time && data[16..] == c.payload;
  }

  /** Byte `i` of `k`, the highest first. */
  lemma {:induction false} BigEndianByte(n: nat, k: nat, i: nat)
    requires i < k
    ensures BigEndian(n, k)[i] == n / Pow256(k - 1 - i) % 256
  {
    if i < k - 1 {
      BigEndianByte(n / 256, k - 1, i);
      DivideTwice(n, Pow256(k - 2 - i));
    }
  }

  lemma DivideTwice(n: nat, d: nat)
    requires d > 0
    ensures n / 256 / d == n / (256 * d)
  {
    var q, r := n / 256 / d, n / 256 % d;
    assert n / 256 == q * d + r;
    assert n == 256 * (q * d + r) + n % 256;
    assert 256 * (q * d) == q * (256 * d);
    QuotientIs(n, 256 * d, q, 256 * r + n % 256);
  }

  lemma QuotientIs(n: nat, d: nat, q: nat, r: nat)
    requires d > 0 && n == q * d + r && r < d
    ensures n / d == q
  {
    var p, m := n / d, n % d;
    assert n == p * d + m;
    if p < q {
      Multiples(p + 1, q, d);
    } else if p > q {
      Multiples(q + 1, p, d);
    }
  }

  lemma Multiples(a: nat, b: nat, d: nat)
    requires 0 < a <= b
    ensures a * d == (a - 1) * d + d && a * d <= b * d
  {
    assert b * d == a * d + (b - a) * d;
  }

  /** Eight bytes of sequence number, eight of time stamp, each with the highest byte first, and the payload. */
  lemma WireIs(c: Chunk, i: nat)
    requires i < 8
    ensures var data := EncodeWire(c);
            && |data| == 16 + |c.payload|
            && data[i] == c.seqId / Pow256(7 - i) % 256
            && data[8 + i] == c.timestamp / Pow256(7 - i) % 256
            && data[16..] == c.payload
  {
    BigEndianByte(c.seqId, 8, i);
    BigEndianByte(c.timestamp, 8, i);
    assert EncodeWire(c)[..8] == BigEndian(c.seqId, 8) && EncodeWire(c)[8..16] == BigEndian(c.timestamp, 8);
    hide BigEndian, Pow256;
  }

  /**
   Data too short for the two numbers is handed on whole and at once as an unsequenced chunk, and the consumer goes on
   as if it had not come.
   */
  lemma ShortDataPassesThrough(data: seq<byte>, st: State, window: nat, pending: seq<Chunk>)
    requires |data| < 16 && st.expected !in st.buffer
    ensures var c := DecodeWire(data);
            && c.payload == data
            && Outputs(st, window, [c] + pending) == [c] + Outputs(st, window, pending)
            && Final(st, window, [c] + pending) == Final(st, window, pending)
  {
    var c := DecodeWire(data);
    assert ([c] + pending)[1..] == pending;
    assert OnArrival(st, window, c) == (st, Some(c));
    hide OnArrival;
    UnfoldOutputs(st, window, [c] + pending);
  }

  // ---- The journal ----

  /** The last `n` elements. */
  function Last<T>(s: seq<T>, n: nat): seq<T> {
    if |s| <= n then s else s[|s| - n..]
  }

  function Max(a: nat, b: nat): nat {
    if a < b then b else a
  }

  /** `pop_front` on a full journal, then `push_back`. */
  function Push<T>(journal: seq<T>, capacity: nat, x: T): seq<T> {
    (if |journal| >= capacity && journal != [] then journal[1..] else journal) + [x]
  }

  /** The journal is always the most recent pushes; one that may hold nothing still holds one. */
  lemma PushKeepsLast<T>(pushes: seq<T>, capacity: nat, x: T)
    ensures Push(Last(pushes, Max(capacity, 1)), capacity, x) == Last(pushes + [x], Max(capacity, 1))
  {
    var n := Max(capacity, 1);
    if |pushes| < n {
      assert pushes + [x] == Last(pushes + [x], n);
    } else {
      assert Last(pushes, n)[1..] == pushes[|pushes| - n + 1..];
      assert (pushes + [x])[|pushes| + 1 - n..] == pushes[|pushes| + 1 - n..] + [x];
    }
  }

  class DataStreamProducer {
    var sequence: nat
    var journal: seq<Chunk>
    const journalCapacity: nat
    /** Payloads handed to the client, oldest first; `open` is false once it is closed. */
    var published: seq<seq<byte>>
    var open: bool

    constructor (journalCapacity: nat)
      ensures sequence == 1 && journal == [] && published == [] && open
      ensures this.journalCapacity == journalCapacity
    {
      sequence, journal, published, open := 1, [], [], true;
      this.journalCapacity := journalCapacity;
    }

    /** `fetch_add`. */
    method TakeId() returns (id: nat)
      modifies this`sequence
      ensures id == old(sequence) && sequence == old(sequence) + 1
    {
      id := sequence;
      sequence := sequence + 1;
    }

    method Record(chunk: Chunk)
      modifies this`journal
      ensures journal == Push(old(journal), journalCapacity, chunk)
    {
      if |journal| >= journalCapacity && journal != [] {
        journal := journal[1..];
      }
      journal := journal + [chunk];
    }

    /** `AsyncClient::publish`; false when the client is closed. */
    method Publish(payload: seq<byte>) returns (ok: bool)
      modifies this`published
      ensures ok == open
      ensures published == if open then old(published) + [payload] else old(published)
    {
      ok := open;
      if ok {
        published := published + [payload];
      }
    }

    method Send(payload: seq<byte>, now: nat) returns (r: Option<nat>)
      modifies this
      ensures open == old(open) && sequence == old(sequence) + 1
      ensures var c := Chunk(old(sequence), now, payload);
              && journal == Push(old(journal), journalCapacity, c)
              && (open ==> r == Some(c.seqId) && published == old(published) + [EncodeWire(c)])
              && (!open ==> r == None && published == old(published))
    {
      var id := TakeId();
      var chunk := Chunk(id, now, payload);
      Record(chunk);
      var ok := Publish(EncodeWire(chunk));
      r := if ok then Some(id) else None;
    }

    /** Publishes the whole journal again, oldest first; nothing on the wire marks it as a replay. */
    method ReplayRecoveryJournal() returns (r: Option<nat>)
      modifies this`published
      ensures r == if open || journal == [] then Some(|journal|) else None
      ensures published == if open then old(published) + Wires(journal) else old(published)
    {
      var replayed := 0;
      assert journal[..0] == [] && old(published) + [] == old(published);
      while replayed < |journal|
        invariant 0 <= replayed <= |journal|
        invariant published == if open then old(published) + Wires(journal[..replayed]) else old(published)
        invariant !open ==> replayed == 0
      {
        WiresAppend(journal[..replayed], journal[replayed]);
        assert journal[..replayed + 1] == journal[..replayed] + [journal[replayed]];
        var ok := Publish(EncodeWire(journal[replayed]));
        if !ok {
          return None;
        }
        replayed := replayed + 1;
      }
      assert journal[..|journal|] == journal;
      return Some(replayed);
    }
  }

  function Wires(chunks: seq<Chunk>): (w: seq<seq<byte>>)
    ensures |w| == |chunks|
  {
    if chunks == [] then [] else [EncodeWire(chunks[0])] + Wires(chunks[1..])
  }

  lemma {:induction false} WiresAppend(chunks: seq<Chunk>, c: Chunk)
    ensures Wires(chunks + [c]) == Wires(chunks) + [EncodeWire(c)]
  {
    if chunks != [] {
      WiresAppend(chunks[1..], c);
      assert (chunks + [c])[1..] == chunks[1..] + [c];
    }
  }

  // ---- Replay ----

  /** Nothing but arrivals and buffered chunks is ever output. */
  lemma {:induction false} OutputsComeFromInput(st: State, window: nat, pending: seq<Chunk>, c: Chunk)
    requires Sound(st, window) && c in Outputs(st, window, pending)
    ensures c in pending || (c.seqId in st.buffer && st.buffer[c.seqId] == c)
  {
    ArrivalsAreAccounted(st, window, pending);
    assert c in multiset(Outputs(st, window, pending));
    assert c in multiset(pending) + Buffered(st.buffer);
  }

  /** `pending` is the history from id `from` on; buffered chunks are from the same history. */
  ghost predicate FromHistory(st: State, history: seq<Chunk>, from: nat, pending: seq<Chunk>) {
    && 1 <= from <= |history| + 1
    && (forall i :: 0 <= i < |history| ==> history[i].seqId == i + 1)
    && pending == history[from - 1..]
    && (forall k :: k in st.buffer ==> 1 <= k <= |history| && st.buffer[k] == history[k - 1])
  }

  /** Every id from the expected one up to where the replay starts is still buffered. */
  ghost predicate Covered(st: State, from: nat) {
    forall x :: st.expected <= x < from ==> x in st.buffer
  }

  lemma ReplayDrain(st: State, window: nat, history: seq<Chunk>, from: nat, pending: seq<Chunk>)
    requires Sound(st, window) && FromHistory(st, history, from, pending) && st.expected in st.buffer
    ensures FromHistory(State(st.expected + 1, st.buffer - {st.expected}), history, from, pending)
    ensures Covered(st, from) ==> Covered(State(st.expected + 1, st.buffer - {st.expected}), from)
    ensures st.expected <= |history| && st.buffer[st.expected] == history[st.expected - 1]
    ensures history[st.expected - 1..] == [history[st.expected - 1]] + history[st.expected..]
  {
  }

  lemma ReplayStep(st: State, window: nat, history: seq<Chunk>, from: nat, pending: seq<Chunk>)
    requires Sound(st, window) && FromHistory(st, history, from, pending)
    requires st.expected !in st.buffer && pending != [] && Covered(st, from)
    ensures var next := OnArrival(st, window, pending[0]).0;
            && from <= st.expected && Sound(next, window) && next.expected > 0
            && (st.expected <= |history| + 1 ==> next.expected <= |history| + 1)
            && FromHistory(next, history, from + 1, pending[1..]) && Covered(next, from + 1)
            && Final(st, window, pending) == Final(next, window, pending[1..])
  {
    var c := pending[0];
    assert c == history[from - 1] && c.seqId == from;
    assert from <= st.expected;
    ArrivalKeepsSound(st, window, c);
    assert pending[1..] == history[from..];
  }

  /** A covered replay outputs exactly the missing part of the history, and never has to skip anything. */
  lemma {:induction false} ReplayOutputs(st: State, window: nat, history: seq<Chunk>, from: nat, pending: seq<Chunk>)
    requires Sound(st, window) && FromHistory(st, history, from, pending)
    requires st.expected <= |history| + 1 && Covered(st, from)
    ensures Outputs(st, window, pending) == history[st.expected - 1..]
    ensures Final(st, window, pending).buffer == map[] && Final(st, window, pending).expected == |history| + 1
    decreases |pending|, |st.buffer|
  {
    hide *;
    SoundExpects(st, window);
    if st.expected in st.buffer {
      Shrinks(st.buffer, st.expected);
      DrainKeepsSound(st, window);
      ReplayDrain(st, window, history, from, pending);
      DrainIsOutput(st, window, pending);
      ReplayOutputs(State(st.expected + 1, st.buffer - {st.expected}), window, history, from, pending);
    } else if pending != [] {
      ReplayStep(st, window, history, from, pending);
      var next := OnArrival(st, window, pending[0]).0;
      ReplayOutputs(next, window, history, from + 1, pending[1..]);
      ReplayArrival(st, window, history, from, pending);
    } else {
      ReplayEnds(st, window, history, from);
    }
  }

  lemma DrainIsOutput(st: State, window: nat, pending: seq<Chunk>)
    requires Sound(st, window) && st.expected in st.buffer
    ensures var next := State(st.expected + 1, st.buffer - {st.expected});
            && Outputs(st, window, pending) == [st.buffer[st.expected]] + Outputs(next, window, pending)
            && Final(st, window, pending) == Final(next, window, pending)
  {
    Shrinks(st.buffer, st.expected);
  }

  lemma ReplayEnds(st: State, window: nat, history: seq<Chunk>, from: nat)
    requires Sound(st, window) && FromHistory(st, history, from, []) && Covered(st, from)
    requires st.expected !in st.buffer && st.expected <= |history| + 1
    ensures st.expected == |history| + 1
    ensures Outputs(st, window, []) == [] && Final(st, window, []) == st && st.buffer == map[]
  {
    assert history[from - 1..] == [] ==> from == |history| + 1;
    assert forall k :: k in st.buffer ==> k >= st.expected;
    assert st.buffer == map[];
  }

  lemma ReplayArrival(st: State, window: nat, history: seq<Chunk>, from: nat, pending: seq<Chunk>)
    requires Sound(st, window) && FromHistory(st, history, from, pending)
    requires st.expected !in st.buffer && pending != [] && from <= st.expected <= |history| + 1
    requires var next := OnArrival(st, window, pending[0]).0;
             next.expected > 0 && next.expected <= |history| + 1
             && Outputs(next, window, pending[1..]) == history[next.expected - 1..]
    ensures Outputs(st, window, pending) == history[st.expected - 1..]
  {
    var c := pending[0];
    var (next, out) := OnArrival(st, window, c);
    assert c == history[from - 1] && c.seqId == from;
    assert out == if from == st.expected then Some(c) else None;
    assert from < st.expected ==> next == st;
    assert from == st.expected ==> next.expected == from + 1;
    hide OnArrival, Sound, FromHistory;
    assert Outputs(st, window, pending)
        == (if out.Some? then [out.value] else []) + Outputs(next, window, pending[1..]);
    hide Outputs;
    assert from == st.expected ==> history[from - 1..] == [history[from - 1]] + history[from..];
  }

  /**
   After any losses, a replay from id `from` on makes the consumer output exactly the ids it still misses, once
   each and in order, if and only if every missing id older than the replay is still in its buffer.
   */
  lemma ReplayRecoversIff(st: State, window: nat, history: seq<Chunk>, from: nat, pending: seq<Chunk>)
    requires Sound(st, window) && FromHistory(st, history, from, pending)
    requires st.expected <= |history| + 1
    ensures Outputs(st, window, pending) == history[st.expected - 1..] <==> Covered(st, from)
  {
    if Covered(st, from) {
      ReplayOutputs(st, window, history, from, pending);
    }
    if Outputs(st, window, pending) == history[st.expected - 1..] {
      forall x | st.expected <= x < from ensures x in st.buffer {
        OldOutputWasBuffered(st, window, history, from, pending, x);
      }
    }
  }

  lemma OldOutputWasBuffered(st: State, window: nat, history: seq<Chunk>, from: nat, pending: seq<Chunk>, x: nat)
    requires Sound(st, window) && FromHistory(st, history, from, pending)
    requires st.expected <= x < from && Outputs(st, window, pending) == history[st.expected - 1..]
    ensures x in st.buffer
  {
    hide Outputs;
    var c := history[x - 1];
    assert c == history[st.expected - 1..][x - st.expected];
    assert forall d :: d in pending ==> d.seqId >= from;
    OutputsComeFromInput(st, window, pending, c);
  }

  /** A replay of a journal that reaches back to the expected id recovers everything sent; a second one is silent. */
  lemma JournalRecovers(st: State, window: nat, history: seq<Chunk>, capacity: nat)
    requires Sound(st, window)
    requires var journal := Last(history, Max(capacity, 1));
             FromHistory(st, history, |history| - |journal| + 1, journal)
             && |history| - |journal| < st.expected <= |history| + 1
    ensures var journal := Last(history, Max(capacity, 1));
            && Outputs(st, window, journal) == history[st.expected - 1..]
            && Outputs(Final(st, window, journal), window, journal) == []
  {
    var journal := Last(history, Max(capacity, 1));
    var from := |history| - |journal| + 1;
    ReplayOutputs(st, window, history, from, journal);
    OutputsRise(st, window, journal);
    var done := Final(st, window, journal);
    ReplayOutputs(done, window, history, from, journal);
  }

  // ---- Concurrent producers ----

  /** Where a thread is inside `send`: before it, holding an id, or holding an id already in the journal. */
  datatype Phase = Idle | Took(id: nat) | Recorded(id: nat)

  /** Shared counter, threads, all pushes so far, the journal, and the ids published on the link in order. */
  datatype Producers = Producers(nextId: nat, threads: seq<Phase>, pushes: seq<nat>, journal: seq<nat>, link: seq<nat>)

  datatype Event = Take(t: nat) | Journal(t: nat) | Release(t: nat)

  predicate Enabled(s: Producers, e: Event) {
    e.t < |s.threads| &&
    match e
    case Take(t) => s.threads[t].Idle?
    case Journal(t) => s.threads[t].Took?
    case Release(t) => s.threads[t].Recorded?
  }

  function Next(s: Producers, capacity: nat, e: Event): Producers
    requires Enabled(s, e)
  {
    match e
    case Take(t) => s.(nextId := s.nextId + 1, threads := s.threads[t := Took(s.nextId)])
    case Journal(t) =>
      var id := s.threads[t].id;
      s.(threads := s.threads[t := Recorded(id)], pushes := s.pushes + [id], journal := Push(s.journal, capacity, id))
    case Release(t) => s.(threads := s.threads[t := Idle], link := s.link + [s.threads[t].id])
  }

  predicate Runs(s: Producers, capacity: nat, events: seq<Event>)
    decreases |events|
  {
    events == [] || (Enabled(s, events[0]) && Runs(Next(s, capacity, events[0]), capacity, events[1..]))
  }

  function After(s: Producers, capacity: nat, events: seq<Event>): Producers
    requires Runs(s, capacity, events)
    decreases |events|
  {
    if events == [] then s else After(Next(s, capacity, events[0]), capacity, events[1..])
  }

  function Start(threads: nat): Producers {
    Producers(1, seq(threads, _ => Idle), [], [], [])
  }

  function HeldBy(p: Phase): multiset<nat> {
    if p.Idle? then multiset{} else multiset{p.id}
  }

  function Held(threads: seq<Phase>): multiset<nat> {
    if threads == [] then multiset{} else HeldBy(threads[0]) + Held(threads[1..])
  }

  lemma {:induction false} HeldUpdate(threads: seq<Phase>, t: nat, p: Phase)
    requires t < |threads|
    ensures Held(threads[t := p]) + HeldBy(threads[t]) == Held(threads) + HeldBy(p)
  {
    if t == 0 {
      assert threads[t := p][1..] == threads[1..];
    } else {
      HeldUpdate(threads[1..], t - 1, p);
      assert threads[t := p][1..] == threads[1..][t - 1 := p];
      Exchanged(HeldBy(threads[0]), Held(threads[1..]), Held(threads[1..][t - 1 := p]), HeldBy(threads[t]), HeldBy(p));
    }
  }

  lemma Exchanged(head: multiset<nat>, before: multiset<nat>, after: multiset<nat>, x: multiset<nat>, y: multiset<nat>)
    requires after + x == before + y
    ensures head + after + x == head + before + y
  {
    assert head + after + x == head + (after + x);
    assert head + before + y == head + (before + y);
  }

  /** Every id allocated is held by one thread or published once; the journal is the latest pushes. */
  ghost predicate Inv(s: Producers, capacity: nat) {
    && s.nextId >= 1
    && multiset(s.link) + Held(s.threads) == multiset(UpTo(1, s.nextId - 1))
    && s.journal == Last(s.pushes, Max(capacity, 1))
  }

  lemma UpToExtends(last: nat)
    ensures UpTo(1, last + 1) == UpTo(1, last) + [last + 1]
  {
    hide UpTo;
    assert UpTo(1, last + 1) == UpTo(1, last) + [last + 1];
  }

  lemma OneMoreHeld(link: multiset<nat>, before: multiset<nat>, after: multiset<nat>, all: multiset<nat>,
                    one: multiset<nat>)
    requires link + before == all && after == before + one
    ensures link + after == all + one
  {
  }

  lemma TakeKeepsInv(s: Producers, capacity: nat, t: nat)
    requires Inv(s, capacity) && Enabled(s, Take(t))
    ensures Inv(Next(s, capacity, Take(t)), capacity)
  {
    hide UpTo, Held, Last;
    var id, upTo := s.nextId, UpTo(1, s.nextId - 1);
    var threads := s.threads[t := Took(id)];
    var link: multiset<nat>, one: multiset<nat> := multiset(s.link), multiset{id};
    HeldUpdate(s.threads, t, Took(id));
    assert Held(threads) + multiset{} == Held(threads);
    OneMoreHeld(link, Held(s.threads), Held(threads), multiset(upTo), one);
    UpToExtends(id - 1);
    assert multiset(upTo + [id]) == multiset(upTo) + one;
  }

  lemma JournalKeepsInv(s: Producers, capacity: nat, t: nat)
    requires Inv(s, capacity) && Enabled(s, Journal(t))
    ensures Inv(Next(s, capacity, Journal(t)), capacity)
  {
    hide UpTo, Held, Last, Push;
    var id := s.threads[t].id;
    var threads := s.threads[t := Recorded(id)];
    HeldUpdate(s.threads, t, Recorded(id));
    var one: multiset<nat> := multiset{id};
    assert Held(threads) == Held(threads) + one - one == Held(s.threads);
    PushKeepsLast(s.pushes, capacity, id);
  }

  lemma ReleaseKeepsInv(s: Producers, capacity: nat, t: nat)
    requires Inv(s, capacity) && Enabled(s, Release(t))
    ensures Inv(Next(s, capacity, Release(t)), capacity)
  {
    hide UpTo, Held, Last;
    var id := s.threads[t].id;
    var threads := s.threads[t := Idle];
    HeldUpdate(s.threads, t, Idle);
    assert Held(s.threads) + multiset{} == Held(s.threads);
    var link: multiset<nat>, one: multiset<nat> := multiset(s.link), multiset{id};
    assert multiset(s.link + [id]) + Held(threads) == link + (Held(threads) + one);
  }

  lemma StepKeepsInv(s: Producers, capacity: nat, e: Event)
    requires Inv(s, capacity) && Enabled(s, e)
    ensures Inv(Next(s, capacity, e), capacity)
  {
    match e
    case Take(t) => TakeKeepsInv(s, capacity, t);
    case Journal(t) => JournalKeepsInv(s, capacity, t);
    case Release(t) => ReleaseKeepsInv(s, capacity, t);
  }

  lemma {:induction false} RunsKeepInv(s: Producers, capacity: nat, events: seq<Event>)
    requires Inv(s, capacity) && Runs(s, capacity, events)
    ensures Inv(After(s, capacity, events), capacity)
    decreases |events|
  {
    if events != [] {
      StepKeepsInv(s, capacity, events[0]);
      hide Inv, Next;
      RunsKeepInv(Next(s, capacity, events[0]), capacity, events[1..]);
    }
  }

  lemma {:induction false} IdleHoldsNothing(threads: seq<Phase>)
    requires forall p :: p in threads ==> p.Idle?
    ensures Held(threads) == multiset{}
  {
    if threads != [] {
      IdleHoldsNothing(threads[1..]);
    }
  }

  /**
   For any interleaving of concurrent sends, once all have finished the link carries 1..k in some order, and over
   a lossless link the consumer outputs exactly 1..k in order if and only if no send was overtaken by more than
   `window` later ones.
   */
  lemma ConcurrentSendsDeliver(threads: nat, capacity: nat, events: seq<Event>, arrivals: seq<Chunk>, window: nat)
    requires Runs(Start(threads), capacity, events)
    requires var s := After(Start(threads), capacity, events);
             (forall p :: p in s.threads ==> p.Idle?) && Ids(arrivals) == s.link
    ensures var s := After(Start(threads), capacity, events);
            && s.nextId >= 1 && SomeOrder(s.link, s.nextId - 1)
            && s.journal == Last(s.pushes, Max(capacity, 1))
            && (Ids(Outputs(Stream.State(1, map[]), window, arrivals)) == UpTo(1, s.nextId - 1)
                <==> WithinWindow(s.link, window))
  {
    IdleHoldsNothing(Start(threads).threads);
    assert Inv(Start(threads), capacity);
    RunsKeepInv(Start(threads), capacity, events);
    var s := After(Start(threads), capacity, events);
    IdleHoldsNothing(s.threads);
    hide Outputs, WithinWindow, Next, Runs;
    CompleteInOrderIff(arrivals, s.nextId - 1, window);
  }
}
