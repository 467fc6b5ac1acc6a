/** The bounded QoS 1 and 2 table of the embedded client (crates/mqtt-embedded/src/inflight.rs). */
module Inflight {
  import opened Wrappers
  import opened Bytes
  import opened Packets

  datatype Status = AwaitingPubAck | AwaitingPubRec | AwaitingPubComp | AwaitingPubRel

  datatype Entry = Entry(packetId: u16, qos: QoS, status: Status)

  // ---- The table as a state machine ----

  type Table = map<u16, Status>

  datatype Op =
    | TrackOutbound(id: u16, qos: QoS)
    | TrackInbound(id: u16)
    | GotPubAck(id: u16)
    | GotPubRec(id: u16)
    | GotPubRel(id: u16)
    | GotPubComp(id: u16)
    | Clear

  function OutboundStatus(qos: QoS): Status {
    if qos == ExactlyOnce then AwaitingPubRec else AwaitingPubAck
  }

  /** An identifier already in the table only changes its status. */
  function Tracked(t: Table, capacity: nat, id: u16, status: Status): (Table, bool) {
    if id in t || |t| < capacity then (t[id := status], true) else (t, false)
  }

  function Removed(t: Table, id: u16, from: Status): (Table, bool) {
    if id in t && t[id] == from then (t - {id}, true) else (t, false)
  }

  /** The new table, and whether the call succeeded or found its entry. */
  function Applied(t: Table, capacity: nat, op: Op): (Table, bool) {
    match op
    case TrackOutbound(id, qos) =>
      if qos == AtMostOnce then (t, true) else Tracked(t, capacity, id, OutboundStatus(qos))
    case TrackInbound(id) => Tracked(t, capacity, id, AwaitingPubRel)
    case GotPubAck(id) => Removed(t, id, AwaitingPubAck)
    case GotPubRec(id) => if id in t && t[id] == AwaitingPubRec then (t[id := AwaitingPubComp], true) else (t, false)
    case GotPubRel(id) => Removed(t, id, AwaitingPubRel)
    case GotPubComp(id) => Removed(t, id, AwaitingPubComp)
    case Clear => (map[], true)
  }

  function After(t: Table, capacity: nat, ops: seq<Op>): Table
    decreases |ops|
  {
    if ops == [] then t else After(Applied(t, capacity, ops[0]).0, capacity, ops[1..])
  }

  // ---- The vector behind it ----

  predicate Unique(entries: seq<Entry>) {
    forall i, j :: 0 <= i < j < |entries| ==> entries[i].packetId != entries[j].packetId
  }

  /** The statuses in the vector, whatever their order. */
  function TableOf(entries: seq<Entry>): Table {
    if entries == [] then map[] else TableOf(entries[1..])[entries[0].packetId := entries[0].status]
  }

  lemma {:induction false} TableHolds(entries: seq<Entry>)
    requires Unique(entries)
    ensures forall i :: 0 <= i < |entries| ==>
              entries[i].packetId in TableOf(entries) && TableOf(entries)[entries[i].packetId] == entries[i].status
    ensures forall id :: id in TableOf(entries) ==> exists i :: 0 <= i < |entries| && entries[i].packetId == id
    ensures |TableOf(entries)| == |entries|
  {
    if entries != [] {
      TableHolds(entries[1..]);
      assert forall i :: 0 <= i < |entries| - 1 ==> entries[1..][i] == entries[i + 1];
      forall id | id in TableOf(entries) ensures exists i :: 0 <= i < |entries| && entries[i].packetId == id {
        if id in TableOf(entries[1..]) {
          var i :| 0 <= i < |entries| - 1 && entries[1..][i].packetId == id;
          assert entries[i + 1].packetId == id;
        } else {
          assert entries[0].packetId == id;
        }
      }
    }
  }

  /** Two vectors without repeated identifiers hold the same table when each entry of one is in the other. */
  lemma SameTable(entries: seq<Entry>, t: Table)
    requires Unique(entries)
    requires forall i :: 0 <= i < |entries| ==> entries[i].packetId in t && t[entries[i].packetId] == entries[i].status
    requires forall id :: id in t ==> exists i :: 0 <= i < |entries| && entries[i].packetId == id
    ensures TableOf(entries) == t
  {
    TableHolds(entries);
    hide TableOf;
  }

  /** `Vec::swap_remove`: the last element takes the place of the removed one. */
  function SwapRemove<T>(s: seq<T>, i: nat): (r: seq<T>)
    requires i < |s|
    ensures |r| == |s| - 1
    ensures forall k :: 0 <= k < |r| ==> r[k] == if k == i then s[|s| - 1] else s[k]
  {
    s[i := s[|s| - 1]][..|s| - 1]
  }

  lemma PushedTable(entries: seq<Entry>, e: Entry)
    requires Unique(entries) && e.packetId !in TableOf(entries)
    ensures Unique(entries + [e]) && TableOf(entries + [e]) == TableOf(entries)[e.packetId := e.status]
  {
    TableHolds(entries);
    hide TableOf;
    var r, t := entries + [e], TableOf(entries)[e.packetId := e.status];
    forall id | id in t ensures exists i :: 0 <= i < |r| && r[i].packetId == id {
      if id == e.packetId {
        assert r[|entries|].packetId == id;
      } else {
        var i :| 0 <= i < |entries| && entries[i].packetId == id;
        assert r[i].packetId == id;
      }
    }
    SameTable(r, t);
  }

  lemma UpdatedTable(entries: seq<Entry>, i: nat, status: Status)
    requires Unique(entries) && i < |entries|
    ensures var r := entries[i := entries[i].(status := status)];
            Unique(r) && TableOf(r) == TableOf(entries)[entries[i].packetId := status]
  {
    TableHolds(entries);
    hide TableOf;
    var r, t := entries[i := entries[i].(status := status)], TableOf(entries)[entries[i].packetId := status];
    assert forall k :: 0 <= k < |r| ==> r[k].packetId == entries[k].packetId;
    forall id | id in t ensures exists k :: 0 <= k < |r| && r[k].packetId == id {
      var k :| 0 <= k < |entries| && entries[k].packetId == id;
      assert r[k].packetId == id;
    }
    SameTable(r, t);
  }

  /** Every element but the removed one is still there, the last one at the free place. */
  lemma SwapRemoveMoves(entries: seq<Entry>, i: nat, j: nat)
    requires i < |entries| && j < |entries| && j != i
    ensures var r, k := SwapRemove(entries, i), if j == |entries| - 1 then i else j;
            k < |r| && r[k] == entries[j]
  {
  }

  lemma SwapRemoveTakes(entries: seq<Entry>, i: nat, k: nat)
    requires Unique(entries) && i < |entries| && k < |entries| - 1
    ensures var r, j := SwapRemove(entries, i), if k == i then |entries| - 1 else k;
            |r| == |entries| - 1 && r[k] == entries[j] && r[k].packetId != entries[i].packetId
  {
  }

  lemma SwapRemoveUnique(entries: seq<Entry>, i: nat)
    requires Unique(entries) && i < |entries|
    ensures Unique(SwapRemove(entries, i))
  {
    var r := SwapRemove(entries, i);
    forall k, l | 0 <= k < l < |r| ensures r[k].packetId != r[l].packetId {
      SwapRemoveTakes(entries, i, k);
      SwapRemoveTakes(entries, i, l);
      hide SwapRemove;
    }
  }

  lemma SwapRemovedTable(entries: seq<Entry>, i: nat)
    requires Unique(entries) && i < |entries|
    ensures var r := SwapRemove(entries, i);
            Unique(r) && TableOf(r) == TableOf(entries) - {entries[i].packetId}
  {
    hide *;
    var r, t := SwapRemove(entries, i), TableOf(entries) - {entries[i].packetId};
    SwapRemoveUnique(entries, i);
    SwapRemoveSize(entries, i);
    TableHolds(entries);
    forall k | 0 <= k < |r| ensures r[k].packetId in t && t[r[k].packetId] == r[k].status {
      SwapRemoveTakes(entries, i, k);
    }
    forall id | id in t ensures exists k :: 0 <= k < |r| && r[k].packetId == id {
      var j :| 0 <= j < |entries| && entries[j].packetId == id;
      SwapRemoveMoves(entries, i, j);
      assert r[if j == |entries| - 1 then i else j].packetId == id;
    }
    SameTable(r, t);
  }

  lemma SwapRemoveSize(entries: seq<Entry>, i: nat)
    requires i < |entries|
    ensures |SwapRemove(entries, i)| == |entries| - 1
  {
  }

  class InflightQueue {
    const capacity: nat
    var entries: seq<Entry>

    ghost predicate Valid()
      reads this
    {
      Unique(entries) && |entries| <= capacity
    }

    function Contents(): Table
      reads this
    {
      TableOf(entries)
    }

    constructor (capacity: nat)
      ensures Valid() && this.capacity == capacity && Contents() == map[]
    {
      this.capacity := capacity;
      entries := [];
    }

    /** `iter().position(..)` on the identifier and, when one is given, the status. */
    method Position(packetId: u16, status: Option<Status>) returns (at: Option<nat>)
      requires Valid()
      ensures at.Some? ==> at.value < |entries| && entries[at.value].packetId == packetId
                           && (status.Some? ==> entries[at.value].status == status.value)
      ensures at.Some? <==> packetId in Contents() && (status.Some? ==> Contents()[packetId] == status.value)
    {
      TableHolds(entries);
      hide TableOf;
      for i := 0 to |entries|
        invariant forall k :: 0 <= k < i ==>
                    !(entries[k].packetId == packetId && (status.Some? ==> entries[k].status == status.value))
      {
        if entries[i].packetId == packetId && (status.None? || entries[i].status == status.value) {
          return Some(i);
        }
      }
      return None;
    }

    /** The common part of the two track methods. */
    method Track(packetId: u16, qos: QoS, status: Status) returns (ok: bool)
      requires Valid()
      modifies this
      ensures Valid() && (Contents(), ok) == Tracked(old(Contents()), capacity, packetId, status)
    {
      hide TableOf;
      TableHolds(entries);
      var existing := Position(packetId, None);
      if existing.Some? {
        UpdatedTable(entries, existing.value, status);
        entries := entries[existing.value := entries[existing.value].(status := status)];
        return true;
      }
      if |entries| >= capacity {
        return false;
      }
      PushedTable(entries, Entry(packetId, qos, status));
      entries := entries + [Entry(packetId, qos, status)];
      return true;
    }

    /** `track_outbound`; `false` is `InflightQueueFull`. */
    method TrackOutboundPacket(packetId: u16, qos: QoS) returns (ok: bool)
      requires Valid()
      modifies this
      ensures Valid() && (Contents(), ok) == Applied(old(Contents()), capacity, TrackOutbound(packetId, qos))
    {
      if qos == AtMostOnce {
        return true;
      }
      ok := Track(packetId, qos, if qos == AtLeastOnce then AwaitingPubAck else AwaitingPubRec);
    }

    method TrackInboundQoS2(packetId: u16) returns (ok: bool)
      requires Valid()
      modifies this
      ensures Valid() && (Contents(), ok) == Applied(old(Contents()), capacity, TrackInbound(packetId))
    {
      ok := Track(packetId, ExactlyOnce, AwaitingPubRel);
    }

    /** The common part of the handlers that end a handshake. */
    method Remove(packetId: u16, from: Status) returns (found: bool)
      requires Valid()
      modifies this
      ensures Valid() && (Contents(), found) == Removed(old(Contents()), packetId, from)
    {
      hide TableOf;
      var idx := Position(packetId, Some(from));
      if idx.Some? {
        SwapRemovedTable(entries, idx.value);
        entries := SwapRemove(entries, idx.value);
      }
      return idx.Some?;
    }

    method HandlePubAck(packetId: u16) returns (found: bool)
      requires Valid()
      modifies this
      ensures Valid() && (Contents(), found) == Applied(old(Contents()), capacity, GotPubAck(packetId))
    {
      found := Remove(packetId, AwaitingPubAck);
    }

    method HandlePubRec(packetId: u16) returns (found: bool)
      requires Valid()
      modifies this
      ensures Valid() && (Contents(), found) == Applied(old(Contents()), capacity, GotPubRec(packetId))
    {
      hide TableOf;
      var idx := Position(packetId, Some(AwaitingPubRec));
      if idx.Some? {
        UpdatedTable(entries, idx.value, AwaitingPubComp);
        entries := entries[idx.value := entries[idx.value].(status := AwaitingPubComp)];
      }
      return idx.Some?;
    }

    method HandlePubRel(packetId: u16) returns (found: bool)
      requires Valid()
      modifies this
      ensures Valid() && (Contents(), found) == Applied(old(Contents()), capacity, GotPubRel(packetId))
    {
      found := Remove(packetId, AwaitingPubRel);
    }

    method HandlePubComp(packetId: u16) returns (found: bool)
      requires Valid()
      modifies this
      ensures Valid() && (Contents(), found) == Applied(old(Contents()), capacity, GotPubComp(packetId))
    {
      found := Remove(packetId, AwaitingPubComp);
    }

    method Reset()
      modifies this
      ensures Valid() && Contents() == Applied(old(Contents()), capacity, Clear).0
    {
      entries := [];
    }
  }

  // ---- Whole runs ----

  /** The table never outgrows its bound. */
  lemma {:induction false} NeverOverflows(t: Table, capacity: nat, ops: seq<Op>)
    requires |t| <= capacity
    ensures |After(t, capacity, ops)| <= capacity
    decreases |ops|
  {
    if ops != [] {
      SizeStep(t, capacity, ops[0]);
      hide Applied;
      NeverOverflows(Applied(t, capacity, ops[0]).0, capacity, ops[1..]);
    }
  }

  /** The operation puts in an identifier that was not there. */
  predicate Enters(t: Table, capacity: nat, op: Op) {
    match op
    case TrackOutbound(id, qos) => qos != AtMostOnce && id !in t && Applied(t, capacity, op).1
    case TrackInbound(id) => id !in t && Applied(t, capacity, op).1
    case _ => false
  }

  /** The operation ends a handshake. */
  predicate Completes(t: Table, capacity: nat, op: Op) {
    (op.GotPubAck? || op.GotPubRel? || op.GotPubComp?) && Applied(t, capacity, op).1
  }

  lemma SizeStep(t: Table, capacity: nat, op: Op)
    requires |t| <= capacity
    ensures |Applied(t, capacity, op).0| <= capacity
    ensures op != Clear ==> |Applied(t, capacity, op).0| + (if Completes(t, capacity, op) then 1 else 0)
                            == |t| + (if Enters(t, capacity, op) then 1 else 0)
  {
    match op
    case TrackOutbound(id, qos) => TrackedSize(t, capacity, id, OutboundStatus(qos)); hide Tracked, OutboundStatus;
    case TrackInbound(id) => TrackedSize(t, capacity, id, AwaitingPubRel); hide Tracked;
    case GotPubRec(id) => UpdatedSize(t, id, AwaitingPubComp);
    case GotPubAck(id) => RemovedSize(t, id, AwaitingPubAck); hide Removed;
    case GotPubRel(id) => RemovedSize(t, id, AwaitingPubRel); hide Removed;
    case GotPubComp(id) => RemovedSize(t, id, AwaitingPubComp); hide Removed;
    case Clear =>
  }

  lemma TrackedSize(t: Table, capacity: nat, id: u16, status: Status)
    requires |t| <= capacity
    ensures var u := Tracked(t, capacity, id, status);
            |u.0| <= capacity && |u.0| == |t| + (if u.1 && id !in t then 1 else 0)
  {
    UpdatedSize(t, id, status);
  }

  lemma RemovedSize(t: Table, id: u16, from: Status)
    ensures var u := Removed(t, id, from); |u.0| + (if u.1 then 1 else 0) == |t|
  {
    WithoutSize(t, id);
  }

  lemma UpdatedSize(t: Table, id: u16, status: Status)
    ensures |t[id := status]| == |t| + if id in t then 0 else 1
  {
    assert t[id := status].Keys == t.Keys + {id};
    assert |t[id := status]| == |t[id := status].Keys| && |t| == |t.Keys|;
  }

  lemma WithoutSize(t: Table, id: u16)
    ensures id in t ==> |t - {id}| == |t| - 1
  {
    assert (t - {id}).Keys == t.Keys - {id};
    assert |t - {id}| == |(t - {id}).Keys| && |t| == |t.Keys|;
  }

  function Entered(t: Table, capacity: nat, ops: seq<Op>): nat
    decreases |ops|
  {
    if ops == [] then 0
    else (if Enters(t, capacity, ops[0]) then 1 else 0) + Entered(Applied(t, capacity, ops[0]).0, capacity, ops[1..])
  }

  function Completed(t: Table, capacity: nat, ops: seq<Op>): nat
    decreases |ops|
  {
    if ops == [] then 0
    else (if Completes(t, capacity, ops[0]) then 1 else 0)
         + Completed(Applied(t, capacity, ops[0]).0, capacity, ops[1..])
  }

  /** Between clears, entries made less handshakes completed is the growth of the table. */
  lemma {:induction false} EntriesAreAccountedFor(t: Table, capacity: nat, ops: seq<Op>)
    requires |t| <= capacity && Clear !in ops
    ensures |After(t, capacity, ops)| + Completed(t, capacity, ops) == |t| + Entered(t, capacity, ops)
    decreases |ops|
  {
    if ops != [] {
      SizeStep(t, capacity, ops[0]);
      hide Applied, Enters, Completes;
      EntriesAreAccountedFor(Applied(t, capacity, ops[0]).0, capacity, ops[1..]);
    }
  }

  // ---- What each handshake takes (section 4.3 of MQTT 3.1.1) ----

  /** A QoS 1 publish is over with its PUBACK, and the table is as it was. */
  lemma QoS1TakesPubAck(t: Table, capacity: nat, id: u16)
    requires id !in t && |t| < capacity
    ensures var u := After(t, capacity, [TrackOutbound(id, AtLeastOnce)]);
            && Applied(t, capacity, TrackOutbound(id, AtLeastOnce)).1 && id in u
            && Applied(u, capacity, GotPubAck(id)) == (t, true)
            && Applied(u, capacity, GotPubRec(id)) == (u, false)
            && Applied(u, capacity, GotPubComp(id)) == (u, false)
            && Applied(u, capacity, GotPubRel(id)) == (u, false)
  {
    var u := Applied(t, capacity, TrackOutbound(id, AtLeastOnce)).0;
    assert [TrackOutbound(id, AtLeastOnce)][1..] == [];
    assert u - {id} == t;
  }

  /** A QoS 2 publish takes PUBREC and then PUBCOMP, and nothing else moves it. */
  lemma QoS2TakesPubRecAndPubComp(t: Table, capacity: nat, id: u16)
    requires id !in t && |t| < capacity
    ensures var u := After(t, capacity, [TrackOutbound(id, ExactlyOnce)]);
            var w := Applied(u, capacity, GotPubRec(id)).0;
            && Applied(t, capacity, TrackOutbound(id, ExactlyOnce)).1 && id in u && id in w
            && Applied(u, capacity, GotPubRec(id)) == (w, true)
            && Applied(w, capacity, GotPubComp(id)) == (t, true)
            && Applied(u, capacity, GotPubAck(id)) == Applied(u, capacity, GotPubRel(id)) == (u, false)
            && Applied(u, capacity, GotPubComp(id)) == (u, false)
            && Applied(w, capacity, GotPubAck(id)) == Applied(w, capacity, GotPubRel(id)) == (w, false)
            && Applied(w, capacity, GotPubRec(id)) == (w, false)
  {
    var u := Applied(t, capacity, TrackOutbound(id, ExactlyOnce)).0;
    assert [TrackOutbound(id, ExactlyOnce)][1..] == [];
    var w := Applied(u, capacity, GotPubRec(id)).0;
    assert w - {id} == t;
  }

  /** An incoming QoS 2 message is over with its PUBREL. */
  lemma InboundTakesPubRel(t: Table, capacity: nat, id: u16)
    requires id !in t && |t| < capacity
    ensures var u := After(t, capacity, [TrackInbound(id)]);
            && Applied(t, capacity, TrackInbound(id)).1 && id in u
            && Applied(u, capacity, GotPubRel(id)) == (t, true)
            && Applied(u, capacity, GotPubAck(id)) == Applied(u, capacity, GotPubRec(id)) == (u, false)
            && Applied(u, capacity, GotPubComp(id)) == (u, false)
  {
    var u := Applied(t, capacity, TrackInbound(id)).0;
    assert [TrackInbound(id)][1..] == [];
    assert u - {id} == t;
  }

  /** Whatever happens under one identifier, the others are not touched, and a refused operation changes nothing. */
  lemma OthersAreUntouched(t: Table, capacity: nat, op: Op, other: u16)
    requires op != Clear && other != op.id
    ensures var (u, ok) := Applied(t, capacity, op);
            && (other in u <==> other in t) && (other in t ==> u[other] == t[other])
            && (!ok ==> u == t)
  {
  }

  /** A message that needs an entry is refused if and only if it needs a new one and the table is full. */
  lemma FullIff(t: Table, capacity: nat, id: u16, qos: QoS)
    requires |t| <= capacity
    ensures !Applied(t, capacity, TrackOutbound(id, qos)).1 <==> qos != AtMostOnce && id !in t && |t| == capacity
    ensures !Applied(t, capacity, TrackInbound(id)).1 <==> id !in t && |t| == capacity
    ensures Applied(t, capacity, TrackOutbound(id, AtMostOnce)) == (t, true)
  {
  }

  /** No message goes out under an identifier that is in the table, and none comes in under an outbound one. */
  predicate Apart(t: Table, op: Op) {
    match op
    case TrackOutbound(id, qos) => qos == AtMostOnce || id !in t
    case TrackInbound(id) => id in t ==> t[id] == AwaitingPubRel
    case Clear => false
    case _ => true
  }

  predicate AllApart(t: Table, capacity: nat, ops: seq<Op>)
    decreases |ops|
  {
    ops == [] || (Apart(t, ops[0]) && AllApart(Applied(t, capacity, ops[0]).0, capacity, ops[1..]))
  }

  /** The acknowledgement that takes an entry of this status a step further. */
  function Advancing(id: u16, status: Status): Op {
    match status
    case AwaitingPubAck => GotPubAck(id)
    case AwaitingPubRec => GotPubRec(id)
    case AwaitingPubComp => GotPubComp(id)
    case AwaitingPubRel => GotPubRel(id)
  }

  /** Only that acknowledgement touches the entry. */
  lemma OnlyItsOwn(t: Table, capacity: nat, op: Op, id: u16)
    requires id in t && Apart(t, op)
    ensures var u := Applied(t, capacity, op).0;
            op != Advancing(id, t[id]) <==> id in u && u[id] == t[id]
    ensures var u := Applied(t, capacity, op).0;
            op == Advancing(id, t[id]) ==>
              if t[id] == AwaitingPubRec then id in u && u[id] == AwaitingPubComp else id !in u
  {
  }

  /** Until its acknowledgement comes, an entry stays as it is: over every run. */
  lemma {:induction false} EntryStays(t: Table, capacity: nat, ops: seq<Op>, id: u16)
    requires id in t && AllApart(t, capacity, ops) && Advancing(id, t[id]) !in ops
    ensures var u := After(t, capacity, ops); id in u && u[id] == t[id]
    decreases |ops|
  {
    if ops != [] {
      OnlyItsOwn(t, capacity, ops[0], id);
      hide Applied, Apart, Advancing;
      EntryStays(Applied(t, capacity, ops[0]).0, capacity, ops[1..], id);
    }
  }

  /** Some operation of the run is `first`, and a later one is `second`. */
  predicate Before(ops: seq<Op>, first: Op, second: Op) {
    exists i, j :: 0 <= i < j < |ops| && ops[i] == first && ops[j] == second
  }

  lemma BeforeShifts(ops: seq<Op>, first: Op, second: Op)
    requires ops != [] && (Before(ops[1..], first, second) || (ops[0] == first && second in ops[1..]))
    ensures Before(ops, first, second)
  {
    if Before(ops[1..], first, second) {
      var i, j :| 0 <= i < j < |ops[1..]| && ops[1..][i] == first && ops[1..][j] == second;
      assert ops[i + 1] == first && ops[j + 1] == second;
    } else {
      var j :| 0 <= j < |ops[1..]| && ops[1..][j] == second;
      assert ops[j + 1] == second;
    }
  }

  /** An outbound QoS 2 entry leaves, over any run, only by its PUBREC and then its PUBCOMP. */
  lemma {:induction false} QoS2NeedsBothSteps(t: Table, capacity: nat, ops: seq<Op>, id: u16)
    requires id in t && t[id] == AwaitingPubRec && AllApart(t, capacity, ops)
    ensures var u := After(t, capacity, ops);
            || Before(ops, GotPubRec(id), GotPubComp(id))
            || (id in u && u[id] == AwaitingPubComp && GotPubRec(id) in ops)
            || (id in u && u[id] == AwaitingPubRec && GotPubRec(id) !in ops)
    decreases |ops|
  {
    if ops != [] {
      var u := Applied(t, capacity, ops[0]).0;
      OnlyItsOwn(t, capacity, ops[0], id);
      hide Applied, Apart, Before;
      if ops[0] == GotPubRec(id) {
        if GotPubComp(id) in ops[1..] {
          BeforeShifts(ops, GotPubRec(id), GotPubComp(id));
        } else {
          EntryStays(u, capacity, ops[1..], id);
        }
      } else {
        QoS2NeedsBothSteps(u, capacity, ops[1..], id);
        if Before(ops[1..], GotPubRec(id), GotPubComp(id)) {
          BeforeShifts(ops, GotPubRec(id), GotPubComp(id));
        }
        assert GotPubRec(id) in ops <==> GotPubRec(id) in ops[1..];
      }
    }
  }

  /**
   A tracked message gets an entry of its own, with every other handshake left as it was, exactly when its identifier
   was not in the table; otherwise two handshakes share one entry, and there is one entry less than handshakes.
   */
  lemma TrackingDisturbsIff(t: Table, capacity: nat, id: u16, status: Status)
    requires Tracked(t, capacity, id, status).1
    ensures var u := Tracked(t, capacity, id, status).0;
            && (u - {id} == t <==> id !in t)
            && |u| == |t| + (if id in t then 0 else 1)
  {
    UpdatedSize(t, id, status);
    var u := Tracked(t, capacity, id, status).0;
    if id !in t {
      assert u - {id} == t;
    } else {
      assert id !in u - {id};
    }
  }

  /** The client publishes under the identifier. */
  predicate Sends(op: Op, id: u16) {
    op.TrackOutbound? && op.id == id && op.qos != AtMostOnce
  }

  /** What ends or starts an inbound handshake under the identifier. */
  predicate IsInbound(op: Op, id: u16) {
    op == GotPubRel(id) || op == TrackInbound(id) || op == Clear
  }

  /**
   The two directions share one table. Over any run between the arrival of a QoS 2 message and its PUBREL, the PUBREL
   finds its entry if and only if the client did not publish under the same identifier.
   */
  lemma {:induction false} PubRelFindsIff(t: Table, capacity: nat, ops: seq<Op>, id: u16)
    requires id in t && t[id] == AwaitingPubRel
    requires forall op :: op in ops ==> !IsInbound(op, id)
    ensures Applied(After(t, capacity, ops), capacity, GotPubRel(id)).1 <==> forall op :: op in ops ==> !Sends(op, id)
    decreases |ops|
  {
    if ops == [] {
      UnfoldPubRel(t, capacity, id);
    } else {
      var u := Applied(t, capacity, ops[0]).0;
      assert ops[0] in ops && ops == [ops[0]] + ops[1..];
      EntryMoves(t, capacity, ops[0], id);
      hide Applied, Sends, IsInbound;
      if Sends(ops[0], id) {
        GoneForGood(u, capacity, ops[1..], id);
        UnfoldPubRel(After(u, capacity, ops[1..]), capacity, id);
      } else {
        PubRelFindsIff(u, capacity, ops[1..], id);
      }
    }
  }

  lemma UnfoldPubRel(t: Table, capacity: nat, id: u16)
    ensures Applied(t, capacity, GotPubRel(id)).1 <==> id in t && t[id] == AwaitingPubRel
  {
  }

  lemma EntryMoves(t: Table, capacity: nat, op: Op, id: u16)
    requires !IsInbound(op, id)
    ensures var u := Applied(t, capacity, op).0;
            && (id in t && t[id] == AwaitingPubRel && !Sends(op, id) ==> id in u && u[id] == AwaitingPubRel)
            && (id in t && Sends(op, id) ==> id in u && u[id] != AwaitingPubRel)
            && (!(id in t && t[id] == AwaitingPubRel) ==> !(id in u && u[id] == AwaitingPubRel))
  {
  }

  lemma {:induction false} GoneForGood(t: Table, capacity: nat, ops: seq<Op>, id: u16)
    requires !(id in t && t[id] == AwaitingPubRel) && forall op :: op in ops ==> !IsInbound(op, id)
    ensures var u := After(t, capacity, ops); !(id in u && u[id] == AwaitingPubRel)
    decreases |ops|
  {
    if ops != [] {
      assert ops[0] in ops;
      EntryMoves(t, capacity, ops[0], id);
      hide Applied, Sends, IsInbound;
      GoneForGood(Applied(t, capacity, ops[0]).0, capacity, ops[1..], id);
    }
  }

  /** From an empty table: a QoS 2 message comes, the client publishes under its identifier, and its PUBREL is lost. */
  lemma CollisionLosesTheHandshake(capacity: nat, id: u16, qos: QoS)
    requires capacity > 0 && qos != AtMostOnce
    ensures Applied(After(map[], capacity, [TrackInbound(id)]), capacity, GotPubRel(id)).1
    ensures !Applied(After(map[], capacity, [TrackInbound(id), TrackOutbound(id, qos)]), capacity, GotPubRel(id)).1
  {
    var t := Applied(map[], capacity, TrackInbound(id)).0;
    assert t == map[id := AwaitingPubRel];
    assert After(map[], capacity, [TrackInbound(id)]) == After(t, capacity, []);
    PubRelFindsIff(t, capacity, [], id);
    var ops := [TrackOutbound(id, qos)];
    assert [TrackInbound(id), TrackOutbound(id, qos)][1..] == ops;
    assert Sends(ops[0], id) && ops[0] in ops;
    PubRelFindsIff(t, capacity, ops, id);
  }
}
