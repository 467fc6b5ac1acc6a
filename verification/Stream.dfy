/** The sequenced data stream (crates/mqtt-tokio/src/stream.rs): reordering consumer. */
module Stream {
  import opened Wrappers
  import opened Bytes

  /** A chunk as it travels; the topic is the subscription's and the recovery mark is not on the wire. */
  datatype Chunk = Chunk(seqId: nat, timestamp: nat, payload: seq<byte>)

  // ---- The consumer ----

  /** `expected_seq` and `reorder_buffer`. */
  datatype State = State(expected: nat, buffer: map<nat, Chunk>)

  lemma MinExists(s: set<nat>)
    requires s != {}
    ensures exists k :: k in s && forall j :: j in s ==> k <= j
  {
    var x :| x in s;
    if s != {x} {
      assert s - {x} != {};
      MinExists(s - {x});
      var k :| k in s - {x} && forall j :: j in s - {x} ==> k <= j;
      assert forall j :: j in s ==> j == x || j in s - {x};
      if k <= x {
        assert k in s && forall j :: j in s ==> k <= j;
      } else {
        assert x in s && forall j :: j in s ==> x <= j;
      }
    }
  }

  /** The first key of an ordered map. */
  function First(s: set<nat>): (k: nat)
    requires s != {}
    ensures k in s && forall j :: j in s ==> k <= j
  {
    MinExists(s);
    var k :| k in s && forall j :: j in s ==> k <= j;
    k
  }

  /** What the arrival of a chunk does when the expected one is not buffered. */
  function OnArrival(st: State, window: nat, c: Chunk): (r: (State, Option<Chunk>)) {
    if c.seqId == 0 then (st, Some(c))
    else if c.seqId == st.expected then (State(st.expected + 1, st.buffer), Some(c))
    else if c.seqId > st.expected then
      var buffered := st.buffer[c.seqId := c];
      if |buffered| > window then
        var first := First(buffered.Keys);
        (State(buffered[first].seqId + 1, buffered - {first}), Some(buffered[first]))
      else (State(st.expected, buffered), None)
    else (st, None)
  }

  /** One call of `recv_ordered`: the chunk it returns, the state after it, and the arrivals it left. */
  function Recv(st: State, window: nat, pending: seq<Chunk>): (Option<Chunk>, State, seq<Chunk>)
    decreases |pending|
  {
    if st.expected in st.buffer then
      (Some(st.buffer[st.expected]), State(st.expected + 1, st.buffer - {st.expected}), pending)
    else RecvArrivals(st, window, pending)
  }

  /** The loop of `recv_ordered`. */
  function RecvArrivals(st: State, window: nat, pending: seq<Chunk>): (Option<Chunk>, State, seq<Chunk>)
    decreases |pending|
  {
    if pending == [] then (None, st, [])
    else
      var (next, out) := OnArrival(st, window, pending[0]);
      if out.Some? then (out, next, pending[1..]) else RecvArrivals(next, window, pending[1..])
  }

  class DataStreamConsumer {
    var pending: seq<Chunk>
    var expectedSeq: nat
    var reorderBuffer: map<nat, Chunk>
    const maxReorderWindow: nat

    /** `pending` is what the subscription will still deliver before it closes. */
    constructor (pending: seq<Chunk>, maxReorderWindow: nat)
      ensures this.pending == pending && Abstract() == State(1, map[]) && this.maxReorderWindow == maxReorderWindow
    {
      this.pending := pending;
      this.expectedSeq := 1;
      this.reorderBuffer := map[];
      this.maxReorderWindow := maxReorderWindow;
    }

    function Abstract(): State
      reads this
    {
      State(expectedSeq, reorderBuffer)
    }

    method RecvOrdered() returns (out: Option<Chunk>)
      modifies this
      ensures (out, Abstract(), pending) == Recv(old(Abstract()), maxReorderWindow, old(pending))
    {
      if expectedSeq in reorderBuffer {
        out := Some(reorderBuffer[expectedSeq]);
        reorderBuffer := reorderBuffer - {expectedSeq};
        expectedSeq := expectedSeq + 1;
        return;
      }
      while pending != []
        invariant RecvArrivals(old(Abstract()), maxReorderWindow, old(pending))
               == RecvArrivals(Abstract(), maxReorderWindow, pending)
        decreases |pending|
      {
        var chunk := pending[0];
        pending := pending[1..];
        if chunk.seqId == 0 {
          return Some(chunk);
        }
        if chunk.seqId == expectedSeq {
          expectedSeq := expectedSeq + 1;
          return Some(chunk);
        } else if chunk.seqId > expectedSeq {
          reorderBuffer := reorderBuffer[chunk.seqId := chunk];
          if |reorderBuffer| > maxReorderWindow {
            var firstKey := First(reorderBuffer.Keys);
            var popped := reorderBuffer[firstKey];
            reorderBuffer := reorderBuffer - {firstKey};
            expectedSeq := popped.seqId + 1;
            return Some(popped);
          }
        }
      }
      return None;
    }
  }

  // ---- Receiving until the end ----

  /** Everything `recv_ordered` returns until it returns `None`. */
  function Outputs(st: State, window: nat, pending: seq<Chunk>): seq<Chunk>
    decreases |pending|, |st.buffer|
  {
    if st.expected in st.buffer then
      Shrinks(st.buffer, st.expected);
      [st.buffer[st.expected]] + Outputs(State(st.expected + 1, st.buffer - {st.expected}), window, pending)
    else if pending == [] then []
    else
      var (next, out) := OnArrival(st, window, pending[0]);
      (if out.Some? then [out.value] else []) + Outputs(next, window, pending[1..])
  }

  lemma Shrinks(m: map<nat, Chunk>, k: nat)
    requires k in m
    ensures |m - {k}| == |m| - 1
  {
    assert (m - {k}).Keys == m.Keys - {k};
    assert |m| == |m.Keys| && |m - {k}| == |(m - {k}).Keys|;
  }

  /** The state once `recv_ordered` has returned `None`. */
  function Final(st: State, window: nat, pending: seq<Chunk>): State
    decreases |pending|, |st.buffer|
  {
    if st.expected in st.buffer then
      Shrinks(st.buffer, st.expected);
      Final(State(st.expected + 1, st.buffer - {st.expected}), window, pending)
    else if pending == [] then st
    else Final(OnArrival(st, window, pending[0]).0, window, pending[1..])
  }

  /** `Outputs` is what the calls return one after another. */
  lemma {:induction false} OutputsAreCalls(st: State, window: nat, pending: seq<Chunk>)
    ensures var (out, next, left) := Recv(st, window, pending);
            Outputs(st, window, pending) == if out.None? then [] else [out.value] + Outputs(next, window, left)
    decreases |pending|
  {
    if st.expected !in st.buffer && pending != [] {
      var (next, out) := OnArrival(st, window, pending[0]);
      if out.None? {
        assert next.expected !in next.buffer;
        OutputsAreCalls(next, window, pending[1..]);
        assert [] + Outputs(next, window, pending[1..]) == Outputs(next, window, pending[1..]);
      }
    }
  }

  // ---- Any input at all ----

  /** Buffered ids are their chunks' ids, never below the expected one, and within the window. */
  ghost predicate Sound(st: State, window: nat) {
    && (forall k :: k in st.buffer ==> st.buffer[k].seqId == k && k >= st.expected)
    && |st.buffer| <= window && st.expected > 0
  }

  lemma ArrivalKeepsSound(st: State, window: nat, c: Chunk)
    requires Sound(st, window) && st.expected !in st.buffer
    ensures var (next, out) := OnArrival(st, window, c);
            && Sound(next, window) && next.expected >= st.expected
            && (out.Some? && out.value.seqId != 0 ==>
                  st.expected <= out.value.seqId && next.expected == out.value.seqId + 1)
  {
    hide *;
    if c.seqId > st.expected {
      Grows(st.buffer, c.seqId, c);
      var buffered := st.buffer[c.seqId := c];
      EarlyIsSound(st, window, c);
      if |buffered| > window {
        var first := Popped(st, window, c);
        PopKeepsSound(buffered, first, window);
      } else {
        NotPopped(st, window, c);
      }
    } else {
      NotEarly(st, window, c);
    }
  }

  lemma Grows(m: map<nat, Chunk>, k: nat, c: Chunk)
    ensures |m[k := c]| <= |m| + 1
  {
    assert m[k := c].Keys == m.Keys + {k};
    assert |m[k := c]| == |m[k := c].Keys| && |m| == |m.Keys|;
  }

  lemma EarlyIsSound(st: State, window: nat, c: Chunk)
    requires Sound(st, window) && c.seqId > st.expected
    ensures var buffered := st.buffer[c.seqId := c];
            && (forall k :: k in buffered ==> buffered[k].seqId == k && st.expected <= k)
            && |st.buffer| <= window && st.expected > 0
            && (|buffered| <= window ==> Sound(State(st.expected, buffered), window))
  {
  }

  lemma Popped(st: State, window: nat, c: Chunk) returns (first: nat)
    requires c.seqId > st.expected && |st.buffer[c.seqId := c]| > window
    ensures var buffered := st.buffer[c.seqId := c];
            && first in buffered && (forall k :: k in buffered ==> first <= k)
            && OnArrival(st, window, c)
               == (State(buffered[first].seqId + 1, buffered - {first}), Some(buffered[first]))
  {
    first := First(st.buffer[c.seqId := c].Keys);
  }

  lemma NotPopped(st: State, window: nat, c: Chunk)
    requires c.seqId > st.expected && |st.buffer[c.seqId := c]| <= window
    ensures OnArrival(st, window, c) == (State(st.expected, st.buffer[c.seqId := c]), None)
  {
  }

  lemma NotEarly(st: State, window: nat, c: Chunk)
    requires Sound(st, window) && st.expected !in st.buffer && c.seqId <= st.expected
    ensures var (next, out) := OnArrival(st, window, c);
            && Sound(next, window) && next.expected >= st.expected
            && (out.Some? && out.value.seqId != 0 ==>
                  st.expected <= out.value.seqId && next.expected == out.value.seqId + 1)
  {
  }

  lemma PopKeepsSound(buffered: map<nat, Chunk>, first: nat, window: nat)
    requires first in buffered && |buffered| <= window + 1
    requires forall k :: k in buffered ==> buffered[k].seqId == k && first <= k
    ensures Sound(State(first + 1, buffered - {first}), window)
  {
    Shrinks(buffered, first);
  }

  lemma DrainKeepsSound(st: State, window: nat)
    requires Sound(st, window) && st.expected in st.buffer
    ensures Sound(State(st.expected + 1, st.buffer - {st.expected}), window)
  {
    Shrinks(st.buffer, st.expected);
  }

  /** Ids rise from at least `from`; unsequenced chunks (id 0) may come in between. */
  ghost predicate Rising(outs: seq<Chunk>, from: nat)
    decreases |outs|
  {
    outs == []
    || (if outs[0].seqId == 0 then Rising(outs[1..], from)
        else from <= outs[0].seqId && Rising(outs[1..], outs[0].seqId + 1))
  }

  lemma RisingCons(c: Chunk, later: seq<Chunk>, from: nat, next: nat)
    requires Rising(later, next) && from <= next
    requires c.seqId != 0 ==> from <= c.seqId && next == c.seqId + 1
    ensures Rising([c] + later, from)
  {
    assert ([c] + later)[1..] == later;
    if c.seqId == 0 {
      RisingFromLower(later, next, from);
    }
  }

  /** On any arrivals, sequenced outputs are strictly increasing and the buffer stays within the window. */
  lemma {:induction false} OutputsRise(st: State, window: nat, pending: seq<Chunk>)
    requires Sound(st, window)
    ensures Rising(Outputs(st, window, pending), st.expected)
    ensures Sound(Final(st, window, pending), window)
    decreases |pending|, |st.buffer|
  {
    if st.expected in st.buffer {
      DrainKeepsSound(st, window);
      Shrinks(st.buffer, st.expected);
      var next, c := State(st.expected + 1, st.buffer - {st.expected}), st.buffer[st.expected];
      assert c.seqId == st.expected;
      hide Sound;
      OutputsRise(next, window, pending);
      RisingCons(c, Outputs(next, window, pending), st.expected, next.expected);
    } else if pending != [] {
      var (next, out) := OnArrival(st, window, pending[0]);
      ArrivalKeepsSound(st, window, pending[0]);
      hide OnArrival, Sound;
      var later := Outputs(next, window, pending[1..]);
      OutputsRise(next, window, pending[1..]);
      if out.Some? {
        RisingCons(out.value, later, st.expected, next.expected);
      } else {
        RisingFromLower(later, next.expected, st.expected);
        assert [] + later == later;
      }
    }
  }

  lemma {:induction false} RisingFromLower(outs: seq<Chunk>, from: nat, lower: nat)
    requires Rising(outs, from) && lower <= from
    ensures Rising(outs, lower)
    decreases |outs|
  {
    if outs != [] && outs[0].seqId == 0 {
      RisingFromLower(outs[1..], from, lower);
    }
  }

  // ---- Every arrival is accounted for ----

  /** What an arrival discards: itself when it is stale, else the buffered chunk with its own id. */
  function Discards(st: State, c: Chunk): (d: seq<Chunk>) {
    if c.seqId == 0 || c.seqId == st.expected then []
    else if c.seqId < st.expected then [c]
    else if c.seqId in st.buffer then [st.buffer[c.seqId]]
    else []
  }

  function Discarded(st: State, window: nat, pending: seq<Chunk>): seq<Chunk>
    decreases |pending|, |st.buffer|
  {
    if st.expected in st.buffer then
      Shrinks(st.buffer, st.expected);
      Discarded(State(st.expected + 1, st.buffer - {st.expected}), window, pending)
    else if pending == [] then []
    else Discards(st, pending[0]) + Discarded(OnArrival(st, window, pending[0]).0, window, pending[1..])
  }

  /** The chunks of a buffer, each under its own id. */
  ghost function Buffered(m: map<nat, Chunk>): multiset<Chunk> {
    multiset(m.Values)
  }

  ghost predicate Keyed(m: map<nat, Chunk>) {
    forall k :: k in m ==> m[k].seqId == k
  }

  lemma BufferedRemove(m: map<nat, Chunk>, k: nat)
    requires Keyed(m) && k in m
    ensures Keyed(m - {k}) && Buffered(m) == Buffered(m - {k}) + multiset{m[k]}
  {
    assert m[k] !in (m - {k}).Values;
    forall c | c in m.Values ensures c in (m - {k}).Values || c == m[k] {
      var j :| j in m && m[j] == c;
      if j != k {
        assert j in (m - {k}) && (m - {k})[j] == c;
      }
    }
    assert m.Values == (m - {k}).Values + {m[k]};
  }

  lemma BufferedInsert(m: map<nat, Chunk>, c: Chunk)
    requires Keyed(m) && c.seqId !in m
    ensures Keyed(m[c.seqId := c]) && Buffered(m[c.seqId := c]) == Buffered(m) + multiset{c}
  {
    assert m[c.seqId := c] - {c.seqId} == m;
    BufferedRemove(m[c.seqId := c], c.seqId);
  }

  lemma BufferedPut(m: map<nat, Chunk>, c: Chunk)
    requires Keyed(m)
    ensures Keyed(m[c.seqId := c])
    ensures Buffered(m) + multiset{c}
         == Buffered(m[c.seqId := c]) + (if c.seqId in m then multiset{m[c.seqId]} else multiset{})
  {
    if c.seqId in m {
      BufferedRemove(m, c.seqId);
      BufferedInsert(m - {c.seqId}, c);
      assert (m - {c.seqId})[c.seqId := c] == m[c.seqId := c];
    } else {
      BufferedInsert(m, c);
    }
  }

  function AsSeq(c: Option<Chunk>): seq<Chunk> {
    if c.Some? then [c.value] else []
  }

  lemma ArrivalIsAccounted(st: State, window: nat, c: Chunk)
    requires Keyed(st.buffer)
    ensures var (next, out) := OnArrival(st, window, c);
            && Keyed(next.buffer)
            && Buffered(st.buffer) + multiset{c}
            == Buffered(next.buffer) + multiset(AsSeq(out)) + multiset(Discards(st, c))
  {
    hide Keyed, Buffered;
    if c.seqId != 0 && c.seqId > st.expected {
      BufferedPut(st.buffer, c);
      var buffered := st.buffer[c.seqId := c];
      if |buffered| > window {
        BufferedRemove(buffered, First(buffered.Keys));
      }
    }
  }

  /** Arrivals and buffered chunks are output, still buffered, stale, or replaced by a chunk with the same id. */
  ghost predicate Accounted(st: State, window: nat, pending: seq<Chunk>) {
    multiset(pending) + Buffered(st.buffer)
    == multiset(Outputs(st, window, pending)) + multiset(Discarded(st, window, pending))
       + Buffered(Final(st, window, pending).buffer)
  }

  /** Adding up two steps of the accounts. */
  lemma Balance<T>(c: multiset<T>, later: multiset<T>, before: multiset<T>, after: multiset<T>,
                   out: multiset<T>, outs: multiset<T>, d: multiset<T>, ds: multiset<T>, final: multiset<T>)
    requires before + c == after + out + d
    requires later + after == outs + ds + final
    ensures c + later + before == out + outs + (d + ds) + final
  {
    forall x ensures (c + later + before)[x] == (out + outs + (d + ds) + final)[x] {
      assert (before + c)[x] == (after + out + d)[x];
      assert (later + after)[x] == (outs + ds + final)[x];
    }
  }

  lemma MultisetAppend(a: seq<Chunk>, b: seq<Chunk>)
    ensures multiset(a + b) == multiset(a) + multiset(b)
  {
  }

  lemma DrainIsAccounted(st: State, window: nat, pending: seq<Chunk>)
    requires Keyed(st.buffer) && st.expected in st.buffer
    requires Accounted(State(st.expected + 1, st.buffer - {st.expected}), window, pending)
    ensures Accounted(st, window, pending)
  {
    hide Keyed, Buffered;
    var next, c := State(st.expected + 1, st.buffer - {st.expected}), st.buffer[st.expected];
    BufferedRemove(st.buffer, st.expected);
    Shrinks(st.buffer, st.expected);
    assert Outputs(st, window, pending) == [c] + Outputs(next, window, pending);
    assert Discarded(st, window, pending) == Discarded(next, window, pending);
    assert Final(st, window, pending) == Final(next, window, pending);
    hide Outputs, Discarded, Final;
    MultisetAppend([c], Outputs(next, window, pending));
    Balance(multiset{}, multiset(pending), Buffered(st.buffer), Buffered(next.buffer),
            multiset([c]), multiset(Outputs(next, window, pending)),
            multiset{}, multiset(Discarded(next, window, pending)), Buffered(Final(next, window, pending).buffer));
    assert multiset{} + multiset(pending) == multiset(pending);
    assert multiset{} + multiset(Discarded(next, window, pending)) == multiset(Discarded(next, window, pending));
  }

  lemma ArrivalThenRest(st: State, window: nat, pending: seq<Chunk>)
    requires Keyed(st.buffer) && st.expected !in st.buffer && pending != []
    requires Accounted(OnArrival(st, window, pending[0]).0, window, pending[1..])
    ensures Accounted(st, window, pending)
  {
    hide Keyed, Buffered, OnArrival, Discards;
    var (next, out) := OnArrival(st, window, pending[0]);
    var c, later := pending[0], pending[1..];
    ArrivalIsAccounted(st, window, c);
    assert pending == [c] + later;
    assert Outputs(st, window, pending) == AsSeq(out) + Outputs(next, window, later);
    assert Discarded(st, window, pending) == Discards(st, c) + Discarded(next, window, later);
    assert Final(st, window, pending) == Final(next, window, later);
    hide Outputs, Discarded, Final, AsSeq;
    MultisetAppend([c], later);
    MultisetAppend(AsSeq(out), Outputs(next, window, later));
    MultisetAppend(Discards(st, c), Discarded(next, window, later));
    Balance(multiset{c}, multiset(later), Buffered(st.buffer), Buffered(next.buffer),
            multiset(AsSeq(out)), multiset(Outputs(next, window, later)),
            multiset(Discards(st, c)), multiset(Discarded(next, window, later)),
            Buffered(Final(next, window, later).buffer));
  }

  lemma {:induction false} ArrivalsAreAccounted(st: State, window: nat, pending: seq<Chunk>)
    requires Keyed(st.buffer)
    ensures Accounted(st, window, pending)
    decreases |pending|, |st.buffer|
  {
    if st.expected in st.buffer {
      BufferedRemove(st.buffer, st.expected);
      Shrinks(st.buffer, st.expected);
      hide Keyed, Accounted;
      ArrivalsAreAccounted(State(st.expected + 1, st.buffer - {st.expected}), window, pending);
      DrainIsAccounted(st, window, pending);
    } else if pending != [] {
      ArrivalIsAccounted(st, window, pending[0]);
      hide Keyed, Accounted, OnArrival;
      ArrivalsAreAccounted(OnArrival(st, window, pending[0]).0, window, pending[1..]);
      ArrivalThenRest(st, window, pending);
    }
  }
}
