/** When the reordering consumer delivers a stream complete and in order. */
module StreamOrder {
  import opened Wrappers
  import opened Stream

  function Ids(chunks: seq<Chunk>): (ids: seq<nat>)
    ensures |ids| == |chunks|
    ensures forall i :: 0 <= i < |ids| ==> ids[i] == chunks[i].seqId
  {
    if chunks == [] then [] else [chunks[0].seqId] + Ids(chunks[1..])
  }

  /** The ids from `from` to `last`. */
  function UpTo(from: nat, last: nat): (ids: seq<nat>)
    ensures |ids| == if from <= last then last - from + 1 else 0
    ensures forall i :: 0 <= i < |ids| ==> ids[i] == from + i
    decreases last + 1 - from
  {
    if from > last then [] else [from] + UpTo(from + 1, last)
  }

  /** Ids already seen that are larger than `x`. */
  function Above(seen: set<nat>, x: nat): set<nat> {
    set y | y in seen && y > x
  }

  /** No arrival comes behind more than `window` larger ids. */
  predicate Within(seen: set<nat>, pending: seq<Chunk>, window: nat)
    decreases |pending|
  {
    pending == []
    || (|Above(seen, pending[0].seqId)| <= window && Within(seen + {pending[0].seqId}, pending[1..], window))
  }

  /** The arrivals are exactly the ids up to `last` that were not seen yet, once each. */
  ghost predicate Remaining(seen: set<nat>, pending: seq<Chunk>, last: nat) {
    && (forall x :: x in seen || x in Ids(pending) <==> 1 <= x <= last)
    && (forall c :: c in pending ==> c.seqId !in seen)
    && (forall i, j :: 0 <= i < j < |pending| ==> pending[i].seqId != pending[j].seqId)
  }

  /** Everything seen is either below the expected id or buffered: no id was given up. */
  ghost predicate Settled(st: State, seen: set<nat>) {
    && (forall x :: 1 <= x < st.expected ==> x in seen)
    && st.buffer.Keys == set x | x in seen && x >= st.expected
  }

  lemma RemainingStep(seen: set<nat>, pending: seq<Chunk>, last: nat)
    requires Remaining(seen, pending, last) && pending != []
    ensures Remaining(seen + {pending[0].seqId}, pending[1..], last)
    ensures pending[0].seqId !in seen && 1 <= pending[0].seqId <= last
  {
    var a, later := pending[0].seqId, pending[1..];
    assert Ids(pending) == [a] + Ids(later);
    assert pending[0] in pending && a in Ids(pending);
    OthersRemain(seen, pending, last);
    hide Ids;
    forall x ensures x in seen + {a} || x in Ids(later) <==> 1 <= x <= last {
      assert x in Ids(pending) <==> x == a || x in Ids(later);
    }
  }

  lemma OthersRemain(seen: set<nat>, pending: seq<Chunk>, last: nat)
    requires Remaining(seen, pending, last) && pending != []
    ensures forall c :: c in pending[1..] ==> c.seqId !in seen + {pending[0].seqId}
    ensures forall i, j :: 0 <= i < j < |pending[1..]| ==> pending[1..][i].seqId != pending[1..][j].seqId
  {
    hide Ids;
    forall c | c in pending[1..] ensures c.seqId !in seen + {pending[0].seqId} {
      var j :| 0 <= j < |pending[1..]| && pending[1..][j] == c;
      assert pending[j + 1] == c && pending[j + 1] in pending;
    }
  }

  lemma Smaller(a: set<nat>, b: set<nat>)
    requires a <= b
    ensures |a| <= |b|
  {
    if a != {} {
      var x :| x in a;
      Smaller(a - {x}, b - {x});
    }
  }

  /** An id still to come behind more than `window` larger ones breaks the window. */
  lemma {:induction false} Overtaken(seen: set<nat>, pending: seq<Chunk>, window: nat, x: nat, larger: set<nat>)
    requires x in Ids(pending) && larger <= Above(seen, x) && |larger| > window
    ensures !Within(seen, pending, window)
    decreases |pending|
  {
    if pending[0].seqId == x {
      Smaller(larger, Above(seen, x));
    } else {
      assert Ids(pending) == [pending[0].seqId] + Ids(pending[1..]);
      Overtaken(seen + {pending[0].seqId}, pending[1..], window, x, larger);
    }
  }

  lemma OneMore(outs: seq<Chunk>, c: Chunk, e: nat, last: nat)
    requires c.seqId == e <= last
    ensures Ids([c] + outs) == UpTo(e, last) <==> Ids(outs) == UpTo(e + 1, last)
  {
    assert ([c] + outs)[1..] == outs;
    assert Ids([c] + outs) == [e] + Ids(outs);
    assert UpTo(e, last) == [e] + UpTo(e + 1, last);
    assert ([e] + Ids(outs))[1..] == Ids(outs) && ([e] + UpTo(e + 1, last))[1..] == UpTo(e + 1, last);
  }

  /** The buffered expected chunk is next. */
  lemma DrainKeepsSettled(st: State, seen: set<nat>)
    requires Settled(st, seen) && st.expected in st.buffer
    ensures Settled(State(st.expected + 1, st.buffer - {st.expected}), seen)
  {
    assert (st.buffer - {st.expected}).Keys == st.buffer.Keys - {st.expected};
  }

  lemma InOrderArrival(st: State, seen: set<nat>, c: Chunk)
    requires Settled(st, seen) && st.expected !in st.buffer && c.seqId == st.expected
    ensures Settled(State(st.expected + 1, st.buffer), seen + {c.seqId})
    ensures Above(seen, c.seqId) == st.buffer.Keys
  {
  }

  lemma EarlyArrival(st: State, seen: set<nat>, c: Chunk)
    requires Settled(st, seen) && c.seqId > st.expected
    ensures Settled(State(st.expected, st.buffer[c.seqId := c]), seen + {c.seqId})
    ensures st.expected !in st.buffer ==>
              st.buffer[c.seqId := c].Keys <= Above(seen + {c.seqId}, st.expected) + {c.seqId}
    ensures Above(seen, c.seqId) <= st.buffer.Keys
  {
  }

  /** Without a force-pop the expected id is one that has not been seen. */
  lemma ExpectedIsMissing(st: State, seen: set<nat>, pending: seq<Chunk>, last: nat)
    requires Settled(st, seen) && Remaining(seen, pending, last) && st.expected > 0
    ensures st.expected !in st.buffer ==> st.expected !in seen
    ensures st.expected !in st.buffer && st.expected <= last ==> st.expected in Ids(pending)
    ensures st.expected <= last + 1
    ensures pending == [] && st.expected !in st.buffer ==> st.expected == last + 1
  {
    if st.expected > 1 {
      assert st.expected - 1 in seen;
    }
    assert st.expected in seen || st.expected in Ids(pending) <==> 1 <= st.expected <= last;
  }

  /** A force-pop gives the expected id up, and happens only when the window is broken. */
  lemma ForcePopSkips(st: State, seen: set<nat>, pending: seq<Chunk>, window: nat, last: nat)
    requires Settled(st, seen) && Remaining(seen, pending, last) && Sound(st, window)
    requires st.expected !in st.buffer && pending != [] && pending[0].seqId > st.expected
    requires |st.buffer[pending[0].seqId := pending[0]]| > window
    ensures Ids(Outputs(st, window, pending)) != UpTo(st.expected, last)
    ensures !Within(seen, pending, window)
  {
    hide *;
    FirstOutput(st, window, pending);
    OthersFirst(Outputs(st, window, pending), st.expected, last);
    WindowBreaks(st, seen, pending, window, last);
  }

  lemma OthersFirst(outs: seq<Chunk>, e: nat, last: nat)
    requires outs != [] && outs[0].seqId > e
    ensures Ids(outs) != UpTo(e, last)
  {
  }

  /** The buffered ids are all larger than the expected one, which is still to come. */
  lemma WindowBreaks(st: State, seen: set<nat>, pending: seq<Chunk>, window: nat, last: nat)
    requires Settled(st, seen) && Remaining(seen, pending, last) && Sound(st, window)
    requires st.expected !in st.buffer && pending != [] && pending[0].seqId > st.expected
    requires |st.buffer[pending[0].seqId := pending[0]]| > window
    ensures !Within(seen, pending, window)
  {
    hide *;
    var c, e := pending[0], st.expected;
    var buffered := st.buffer[c.seqId := c];
    SoundExpects(st, window);
    ExpectedIsMissing(st, seen, pending, last);
    RemainingStep(seen, pending, last);
    IdsStep(pending);
    assert |buffered.Keys| == |buffered|;
    BufferedAbove(st, seen, c);
    Overtaken(seen + {c.seqId}, pending[1..], window, e, buffered.Keys);
    if Within(seen, pending, window) {
      WithinStep(seen, pending, window);
    }
  }

  lemma SoundExpects(st: State, window: nat)
    requires Sound(st, window)
    ensures st.expected > 0
  {
  }

  lemma IdsStep(pending: seq<Chunk>)
    requires pending != []
    ensures Ids(pending) == [pending[0].seqId] + Ids(pending[1..])
  {
  }

  lemma BufferedAbove(st: State, seen: set<nat>, c: Chunk)
    requires Settled(st, seen) && st.expected !in st.buffer && c.seqId > st.expected
    ensures st.buffer[c.seqId := c].Keys <= Above(seen + {c.seqId}, st.expected)
  {
  }

  lemma WithinStep(seen: set<nat>, pending: seq<Chunk>, window: nat)
    requires pending != [] && Within(seen, pending, window)
    ensures Within(seen + {pending[0].seqId}, pending[1..], window)
  {
  }

  lemma FirstOutput(st: State, window: nat, pending: seq<Chunk>)
    requires Sound(st, window) && st.expected !in st.buffer && pending != [] && pending[0].seqId > st.expected
    requires |st.buffer[pending[0].seqId := pending[0]]| > window
    ensures Outputs(st, window, pending) != [] && Outputs(st, window, pending)[0].seqId > st.expected
  {
    var c := pending[0];
    var buffered := st.buffer[c.seqId := c];
    var first := First(buffered.Keys);
    assert OnArrival(st, window, c).1 == Some(buffered[first]);
  }

  lemma OrderIffDrain(st: State, window: nat, pending: seq<Chunk>, last: nat)
    requires Sound(st, window) && st.expected in st.buffer && st.expected <= last
    ensures Ids(Outputs(st, window, pending)) == UpTo(st.expected, last)
       <==> Ids(Outputs(State(st.expected + 1, st.buffer - {st.expected}), window, pending))
            == UpTo(st.expected + 1, last)
  {
    Shrinks(st.buffer, st.expected);
    var next := State(st.expected + 1, st.buffer - {st.expected});
    var c := st.buffer[st.expected];
    assert Outputs(st, window, pending) == [c] + Outputs(next, window, pending);
    assert c.seqId == st.expected;
    hide Outputs, Sound;
    OneMore(Outputs(next, window, pending), c, st.expected, last);
  }

  /** What is output is `expected..last` exactly when the rest of the arrivals keeps to the window. */
  lemma {:induction false} InOrderIffWithin(st: State, seen: set<nat>, pending: seq<Chunk>, window: nat, last: nat)
    requires Settled(st, seen) && Remaining(seen, pending, last) && Sound(st, window)
    ensures Ids(Outputs(st, window, pending)) == UpTo(st.expected, last) <==> Within(seen, pending, window)
    decreases |pending|, |st.buffer|
  {
    ExpectedIsMissing(st, seen, pending, last);
    if st.expected in st.buffer {
      Shrinks(st.buffer, st.expected);
      DrainKeepsSettled(st, seen);
      DrainKeepsSound(st, window);
      OrderIffDrain(st, window, pending, last);
      hide Settled, Remaining, Sound, Within, Outputs;
      InOrderIffWithin(State(st.expected + 1, st.buffer - {st.expected}), seen, pending, window, last);
    } else if pending != [] {
      RemainingStep(seen, pending, last);
      ArrivalStep(st, seen, pending, window, last);
      if !Pops(st, pending[0], window) {
        hide Settled, Remaining, Sound, Within, Outputs;
        InOrderIffWithin(OnArrival(st, window, pending[0]).0, seen + {pending[0].seqId}, pending[1..], window, last);
      }
    }
  }

  predicate Pops(st: State, c: Chunk, window: nat) {
    c.seqId > st.expected && |st.buffer[c.seqId := c]| > window
  }

  /** One arrival: either it forces a pop, and both sides fail, or both sides go on with the rest. */
  lemma ArrivalStep(st: State, seen: set<nat>, pending: seq<Chunk>, window: nat, last: nat)
    requires Settled(st, seen) && Remaining(seen, pending, last) && Sound(st, window)
    requires st.expected !in st.buffer && pending != []
    ensures Pops(st, pending[0], window) ==>
              Ids(Outputs(st, window, pending)) != UpTo(st.expected, last) && !Within(seen, pending, window)
    ensures !Pops(st, pending[0], window) ==>
              var next, seen' := OnArrival(st, window, pending[0]).0, seen + {pending[0].seqId};
              && Settled(next, seen') && Sound(next, window)
              && (Within(seen, pending, window) <==> Within(seen', pending[1..], window))
              && (Ids(Outputs(st, window, pending)) == UpTo(st.expected, last)
                  <==> Ids(Outputs(next, window, pending[1..])) == UpTo(next.expected, last))
  {
    if Pops(st, pending[0], window) {
      ForcePopSkips(st, seen, pending, window, last);
    } else {
      ArrivalKeepsOrder(st, seen, pending, window, last);
    }
  }

  lemma ArrivalKeepsOrder(st: State, seen: set<nat>, pending: seq<Chunk>, window: nat, last: nat)
    requires Settled(st, seen) && Remaining(seen, pending, last) && Sound(st, window)
    requires st.expected !in st.buffer && pending != [] && !Pops(st, pending[0], window)
    ensures var next, seen' := OnArrival(st, window, pending[0]).0, seen + {pending[0].seqId};
            && Settled(next, seen') && Sound(next, window)
            && (Within(seen, pending, window) <==> Within(seen', pending[1..], window))
            && (Ids(Outputs(st, window, pending)) == UpTo(st.expected, last)
                <==> Ids(Outputs(next, window, pending[1..])) == UpTo(next.expected, last))
  {
    var c := pending[0];
    ExpectedIsMissing(st, seen, pending, last);
    RemainingStep(seen, pending, last);
    ArrivalKeepsSound(st, window, c);
    assert |st.buffer.Keys| == |st.buffer| <= window;
    hide Remaining, Sound, Outputs;
    if c.seqId == st.expected {
      InOrderArrival(st, seen, c);
      OutputsInOrder(st, window, pending, last);
    } else {
      assert c.seqId > st.expected;
      EarlyArrival(st, seen, c);
      Smaller(Above(seen, c.seqId), st.buffer.Keys);
      hide Settled, Above;
      OutputsEarly(st, window, pending);
    }
  }

  lemma OutputsInOrder(st: State, window: nat, pending: seq<Chunk>, last: nat)
    requires st.expected !in st.buffer && pending != [] && 1 <= pending[0].seqId == st.expected <= last
    ensures var next := OnArrival(st, window, pending[0]).0;
            && next == State(st.expected + 1, st.buffer)
            && (Ids(Outputs(st, window, pending)) == UpTo(st.expected, last)
                <==> Ids(Outputs(next, window, pending[1..])) == UpTo(next.expected, last))
  {
    hide *;
    var next := OnArrival(st, window, pending[0]).0;
    ArrivalIsOutput(st, window, pending);
    OneMore(Outputs(next, window, pending[1..]), pending[0], st.expected, last);
  }

  lemma ArrivalIsOutput(st: State, window: nat, pending: seq<Chunk>)
    requires st.expected !in st.buffer && pending != [] && 1 <= pending[0].seqId == st.expected
    ensures OnArrival(st, window, pending[0]).0 == State(st.expected + 1, st.buffer)
    ensures Outputs(st, window, pending)
         == [pending[0]] + Outputs(State(st.expected + 1, st.buffer), window, pending[1..])
  {
  }

  lemma OutputsEarly(st: State, window: nat, pending: seq<Chunk>)
    requires st.expected !in st.buffer && pending != [] && pending[0].seqId > st.expected
    requires !Pops(st, pending[0], window)
    ensures var next := OnArrival(st, window, pending[0]).0;
            && next == State(st.expected, st.buffer[pending[0].seqId := pending[0]])
            && Outputs(st, window, pending) == Outputs(next, window, pending[1..])
  {
    var next := OnArrival(st, window, pending[0]).0;
    assert Outputs(st, window, pending) == [] + Outputs(next, window, pending[1..]);
  }

  // ---- The theorem on arrival orders ----

  /** The ids that arrive before position `i` although they are larger. */
  function Overtaking(ids: seq<nat>, i: nat): set<nat>
    requires i < |ids|
  {
    set x | x in ids[..i] && x > ids[i]
  }

  predicate WithinWindow(ids: seq<nat>, window: nat) {
    forall i :: 0 <= i < |ids| ==> |Overtaking(ids, i)| <= window
  }

  /** `ids` is some order of 1..last. */
  ghost predicate SomeOrder(ids: seq<nat>, last: nat) {
    multiset(ids) == multiset(UpTo(1, last))
  }

  lemma SomeOrderIsOnce(ids: seq<nat>, last: nat)
    requires SomeOrder(ids, last)
    ensures forall x :: x in ids <==> 1 <= x <= last
    ensures forall i, j :: 0 <= i < j < |ids| ==> ids[i] != ids[j]
  {
    forall x ensures x in ids <==> 1 <= x <= last {
      assert x in ids <==> x in multiset(ids);
      assert x in UpTo(1, last) <==> x in multiset(UpTo(1, last));
      if 1 <= x <= last { assert UpTo(1, last)[x - 1] == x; }
    }
    forall i, j | 0 <= i < j < |ids| ensures ids[i] != ids[j] {
      AtMostOnce(1, last, ids[i]);
      hide *;
      TwiceCounts(ids, i, j);
    }
  }

  lemma TwiceCounts(ids: seq<nat>, i: nat, j: nat)
    requires i < j < |ids|
    ensures ids[i] == ids[j] ==> multiset(ids)[ids[i]] >= 2
  {
    assert ids == ids[..i] + [ids[i]] + ids[i + 1..j] + [ids[j]] + ids[j + 1..];
  }

  lemma CountStep(first: nat, later: seq<nat>, x: nat)
    ensures multiset([first] + later)[x] == (if x == first then 1 else 0) + multiset(later)[x]
  {
    assert multiset([first] + later) == multiset{first} + multiset(later);
  }

  lemma {:induction false} AtMostOnce(from: nat, last: nat, x: nat)
    ensures multiset(UpTo(from, last))[x] == if from <= x <= last then 1 else 0
    decreases last + 1 - from
  {
    if from <= last {
      var later := UpTo(from + 1, last);
      AtMostOnce(from + 1, last, x);
      assert UpTo(from, last) == [from] + later;
      hide UpTo;
      CountStep(from, later, x);
    }
  }

  /** The two ways of counting overtakers agree. */
  lemma {:induction false} WithinIffWindow(ids: seq<nat>, pending: seq<Chunk>, k: nat, seen: set<nat>, window: nat)
    requires k <= |ids| && Ids(pending) == ids[k..] && (forall x :: x in seen <==> x in ids[..k])
    ensures Within(seen, pending, window) <==> forall i :: k <= i < |ids| ==> |Overtaking(ids, i)| <= window
    decreases |pending|
  {
    if pending != [] {
      assert ids[k] == Ids(pending)[0] == pending[0].seqId;
      assert Ids(pending[1..]) == ids[k..][1..] == ids[k + 1..];
      assert ids[..k + 1] == ids[..k] + [ids[k]];
      assert Above(seen, ids[k]) == Overtaking(ids, k);
      WithinIffWindow(ids, pending[1..], k + 1, seen + {ids[k]}, window);
    }
  }

  /**
   For any order in which the chunks 1..last arrive, receiving until the end yields exactly 1..last in order if
   and only if no id comes behind more than `window` larger ids.
   */
  lemma CompleteInOrderIff(pending: seq<Chunk>, last: nat, window: nat)
    requires SomeOrder(Ids(pending), last)
    ensures Ids(Outputs(State(1, map[]), window, pending)) == UpTo(1, last)
       <==> WithinWindow(Ids(pending), window)
  {
    hide *;
    StartsSettled(window);
    AllRemaining(pending, last);
    InOrderIffWithin(State(1, map[]), {}, pending, window, last);
    WithinFromStart(pending, window);
  }

  lemma StartsSettled(window: nat)
    ensures Settled(State(1, map[]), {}) && Sound(State(1, map[]), window)
  {
  }

  lemma AllRemaining(pending: seq<Chunk>, last: nat)
    requires SomeOrder(Ids(pending), last)
    ensures Remaining({}, pending, last)
  {
    SomeOrderIsOnce(Ids(pending), last);
    forall i, j | 0 <= i < j < |pending| ensures pending[i].seqId != pending[j].seqId {
      assert Ids(pending)[i] != Ids(pending)[j];
    }
  }

  lemma WithinFromStart(pending: seq<Chunk>, window: nat)
    ensures Within({}, pending, window) <==> WithinWindow(Ids(pending), window)
  {
    var ids := Ids(pending);
    assert ids[0..] == ids;
    WithinIffWindow(ids, pending, 0, {}, window);
  }

  // ---- Unsequenced chunks in between ----

  /** The chunks that carry a sequence number. */
  function Sequenced(chunks: seq<Chunk>): seq<Chunk> {
    if chunks == [] then [] else (if chunks[0].seqId == 0 then [] else [chunks[0]]) + Sequenced(chunks[1..])
  }

  function Unsequenced(chunks: seq<Chunk>): seq<Chunk> {
    if chunks == [] then [] else (if chunks[0].seqId == 0 then [chunks[0]] else []) + Unsequenced(chunks[1..])
  }

  lemma SequencedStep(c: Chunk, chunks: seq<Chunk>)
    ensures Sequenced([c] + chunks) == (if c.seqId == 0 then [] else [c]) + Sequenced(chunks)
    ensures Unsequenced([c] + chunks) == (if c.seqId == 0 then [c] else []) + Unsequenced(chunks)
    ensures [] + Sequenced(chunks) == Sequenced(chunks) && [] + Unsequenced(chunks) == Unsequenced(chunks)
  {
    assert ([c] + chunks)[1..] == chunks;
  }

  ghost predicate PassesThrough(st: State, window: nat, pending: seq<Chunk>) {
    && Final(st, window, pending) == Final(st, window, Sequenced(pending))
    && Sequenced(Outputs(st, window, pending)) == Outputs(st, window, Sequenced(pending))
    && Unsequenced(Outputs(st, window, pending)) == Unsequenced(pending)
  }

  /**
   Unsequenced chunks are handed on as they come, all of them and in order, and change nothing for the others: neither
   what is output of those nor the state in the end.
   */
  lemma {:induction false} UnsequencedPassThrough(st: State, window: nat, pending: seq<Chunk>)
    requires Sound(st, window)
    ensures Final(st, window, pending) == Final(st, window, Sequenced(pending))
    ensures Sequenced(Outputs(st, window, pending)) == Outputs(st, window, Sequenced(pending))
    ensures Unsequenced(Outputs(st, window, pending)) == Unsequenced(pending)
  {
    AllPassThrough(st, window, pending);
  }

  lemma {:induction false} AllPassThrough(st: State, window: nat, pending: seq<Chunk>)
    requires Sound(st, window)
    ensures PassesThrough(st, window, pending)
    decreases |pending|, |st.buffer|
  {
    hide *;
    if st.expected in st.buffer {
      Shrinks(st.buffer, st.expected);
      DrainKeepsSound(st, window);
      AllPassThrough(State(st.expected + 1, st.buffer - {st.expected}), window, pending);
      DrainPasses(st, window, pending);
    } else if pending == [] {
      NonePasses(st, window);
    } else {
      ArrivalKeepsSound(st, window, pending[0]);
      AllPassThrough(OnArrival(st, window, pending[0]).0, window, pending[1..]);
      ArrivalIsSequenced(st, window, pending[0]);
      if pending[0].seqId == 0 {
        UnsequencedPasses(st, window, pending);
      } else {
        SequencedPasses(st, window, pending);
      }
    }
  }

  lemma DrainPasses(st: State, window: nat, pending: seq<Chunk>)
    requires Sound(st, window) && st.expected in st.buffer
    requires PassesThrough(State(st.expected + 1, st.buffer - {st.expected}), window, pending)
    ensures PassesThrough(st, window, pending)
  {
    UnfoldOutputs(st, window, pending);
    UnfoldOutputs(st, window, Sequenced(pending));
    SoundChunk(st, window, st.expected);
    hide Sound, Outputs, Final, Sequenced, Unsequenced;
    SequencedStep(st.buffer[st.expected], Outputs(State(st.expected + 1, st.buffer - {st.expected}), window, pending));
  }

  lemma NonePasses(st: State, window: nat)
    requires st.expected !in st.buffer
    ensures PassesThrough(st, window, [])
  {
  }

  lemma UnsequencedPasses(st: State, window: nat, pending: seq<Chunk>)
    requires st.expected !in st.buffer && pending != [] && pending[0].seqId == 0
    requires OnArrival(st, window, pending[0]) == (st, Some(pending[0])) && PassesThrough(st, window, pending[1..])
    ensures PassesThrough(st, window, pending)
  {
    UnfoldOutputs(st, window, pending);
    assert pending == [pending[0]] + pending[1..];
    hide OnArrival, Outputs, Final, Sequenced, Unsequenced;
    SequencedStep(pending[0], pending[1..]);
    SequencedStep(pending[0], Outputs(st, window, pending[1..]));
  }

  lemma SequencedPasses(st: State, window: nat, pending: seq<Chunk>)
    requires st.expected !in st.buffer && pending != [] && pending[0].seqId != 0
    requires OnArrival(st, window, pending[0]).1.Some? ==> OnArrival(st, window, pending[0]).1.value.seqId != 0
    requires PassesThrough(OnArrival(st, window, pending[0]).0, window, pending[1..])
    ensures PassesThrough(st, window, pending)
  {
    var c, later := pending[0], pending[1..];
    var (next, out) := OnArrival(st, window, c);
    assert pending == [c] + later;
    SequencedStep(c, later);
    assert ([c] + Sequenced(later))[1..] == Sequenced(later);
    UnfoldOutputs(st, window, pending);
    UnfoldOutputs(st, window, Sequenced(pending));
    hide OnArrival, Outputs, Final, Sequenced, Unsequenced;
    NothingBefore(Outputs(next, window, later));
    NothingBefore(Outputs(next, window, Sequenced(later)));
    if out.Some? {
      SequencedStep(out.value, Outputs(next, window, later));
    }
  }

  lemma NothingBefore(outs: seq<Chunk>)
    ensures [] + outs == outs
  {
  }

  lemma SoundChunk(st: State, window: nat, k: nat)
    requires Sound(st, window) && k in st.buffer
    ensures st.buffer[k].seqId == k > 0
  {
  }

  /** An unsequenced chunk goes through at once; what a sequenced one makes come out is sequenced. */
  lemma ArrivalIsSequenced(st: State, window: nat, c: Chunk)
    requires Sound(st, window) && st.expected !in st.buffer
    ensures c.seqId == 0 ==> OnArrival(st, window, c) == (st, Some(c))
    ensures c.seqId != 0 && OnArrival(st, window, c).1.Some? ==> OnArrival(st, window, c).1.value.seqId != 0
  {
    if c.seqId > st.expected && |st.buffer[c.seqId := c]| > window {
      var first := Popped(st, window, c);
      hide OnArrival;
    }
  }

  lemma UnfoldOutputs(st: State, window: nat, pending: seq<Chunk>)
    ensures Outputs(st, window, pending)
         == if st.expected in st.buffer then
              [st.buffer[st.expected]] + Outputs(State(st.expected + 1, st.buffer - {st.expected}), window, pending)
            else if pending == [] then []
            else
              (if OnArrival(st, window, pending[0]).1.Some? then [OnArrival(st, window, pending[0]).1.value] else [])
              + Outputs(OnArrival(st, window, pending[0]).0, window, pending[1..])
    ensures Final(st, window, pending)
         == if st.expected in st.buffer then
              Final(State(st.expected + 1, st.buffer - {st.expected}), window, pending)
            else if pending == [] then st
            else Final(OnArrival(st, window, pending[0]).0, window, pending[1..])
  {
    hide OnArrival;
  }

  /** In any arrival of 1..last with unsequenced chunks anywhere in between, in order means the same as without them. */
  lemma MixedInOrderIff(pending: seq<Chunk>, last: nat, window: nat)
    requires SomeOrder(Ids(Sequenced(pending)), last)
    ensures var outs := Outputs(State(1, map[]), window, pending);
            && (Ids(Sequenced(outs)) == UpTo(1, last) <==> WithinWindow(Ids(Sequenced(pending)), window))
            && Unsequenced(outs) == Unsequenced(pending)
  {
    hide *;
    StartsSettled(window);
    UnsequencedPassThrough(State(1, map[]), window, pending);
    CompleteInOrderIff(Sequenced(pending), last, window);
  }

  // ---- Repeated chunks ----

  /** When a chunk that is still buffered arrives again, the later one is handed on in its place. */
  lemma LaterArrivalWins(early: Chunk, again: Chunk, first: Chunk, window: nat)
    requires early.seqId == again.seqId == 2 && first.seqId == 1 && window >= 1
    ensures Outputs(State(1, map[]), window, [early, again, first]) == [first, again]
  {
    var st, a, b := State(1, map[]), State(1, map[2 := early]), State(1, map[2 := again]);
    assert [early, again, first][1..] == [again, first] && [again, first][1..] == [first] && [first][1..] == [];
    assert st.buffer[2 := early] == map[2 := early] && map[2 := early][2 := again] == map[2 := again];
    assert |map[2 := early]| == 1 && |map[2 := again]| == 1;
    assert OnArrival(st, window, early) == (a, None) && OnArrival(a, window, again) == (b, None);
    assert OnArrival(b, window, first) == (State(2, map[2 := again]), Some(first));
    var c := State(2, map[2 := again]);
    assert c.buffer - {2} == map[];
    assert Outputs(State(3, map[]), window, []) == [];
    assert Outputs(c, window, []) == [again] + Outputs(State(3, c.buffer - {2}), window, []);
    hide OnArrival;
    UnfoldOutputs(st, window, [early, again, first]);
    UnfoldOutputs(a, window, [again, first]);
    UnfoldOutputs(b, window, [first]);
  }
}
