/** The topic router (crates/mqtt-tokio/src/router.rs). */
module Router {
  import opened Wrappers
  import opened Topics
  import opened Trie

  /** `Vec::retain` with a send to every open sender: the senders kept, which are also those sent to. */
  method Retain(senders: seq<Sender>, closed: set<Sender>) returns (kept: seq<Sender>)
    ensures kept == Open(senders, closed)
  {
    kept := [];
    for i := 0 to |senders|
      invariant kept == Open(senders[..i], closed)
    {
      assert senders[..i + 1] == senders[..i] + [senders[i]];
      OpenAppend(senders[..i], [senders[i]], closed);
      assert Open([senders[i]], closed) == IfOpen(senders[i], closed) + [];
      if senders[i] !in closed {
        kept := kept + [senders[i]];
      }
    }
    assert senders[..|senders|] == senders;
  }

  /** The descent of `insert`, one level per call; the node comes back changed. */
  method InsertInto(node: Node, levels: seq<string>, depth: nat, sender: Sender) returns (changed: Node)
    requires depth <= |levels|
    ensures changed == Inserted(node, levels[depth..], sender)
    decreases |levels| - depth
  {
    if depth == |levels| {
      return node.(exact := node.exact + [sender]);
    }
    assert levels[depth..][1..] == levels[depth + 1..];
    var level := levels[depth];
    if level == "#" {
      changed := node.(hash := node.hash + [sender]);
    } else if level == "+" {
      var c := InsertInto(PlusOr(node), levels, depth + 1, sender);
      changed := node.(plus := Some(c));
    } else {
      var c := InsertInto(ChildOr(node, level), levels, depth + 1, sender);
      changed := node.(children := node.children[level := c]);
    }
  }

  /** `remove_recursive`: the changed node, and whether it is now empty. */
  method RemoveRecursive(node: Node, levels: seq<string>, depth: nat) returns (changed: Node, empty: bool)
    requires depth <= |levels|
    ensures changed == Removed(node, levels[depth..]) && empty == IsEmpty(changed)
    decreases |levels| - depth
  {
    changed := node;
    if depth == |levels| {
      changed := node.(exact := []);
      return changed, IsEmpty(changed);
    }
    assert levels[depth..][1..] == levels[depth + 1..];
    var level := levels[depth];
    if level == "#" {
      changed := node.(hash := []);
    } else if level == "+" {
      if node.plus.Some? {
        var p, gone := RemoveRecursive(node.plus.value, levels, depth + 1);
        changed := node.(plus := if gone then None else Some(p));
      }
    } else if level in node.children {
      var c, gone := RemoveRecursive(node.children[level], levels, depth + 1);
      changed := node.(children := if gone then node.children - {level} else node.children[level := c]);
    }
    empty := IsEmpty(changed);
  }

  /** `match_and_dispatch`: the changed node, and the sends attempted in order. */
  method MatchAndDispatch(node: Node, levels: seq<string>, depth: nat, closed: set<Sender>)
    returns (changed: Node, sends: seq<Sender>)
    requires depth <= |levels|
    ensures changed == Swept(node, levels[depth..], closed) && sends == Sends(node, levels[depth..], closed)
    decreases |levels| - depth
  {
    hide Open;
    var own := Retain(node.hash, closed);
    if depth == |levels| {
      var kept := Retain(node.exact, closed);
      return node.(hash := own, exact := kept), own + kept;
    }
    assert levels[depth..][1..] == levels[depth + 1..];
    var level := levels[depth];
    var children, below := node.children, [];
    if level in node.children {
      var c, s := MatchAndDispatch(node.children[level], levels, depth + 1, closed);
      children, below := node.children[level := c], s;
    }
    var plus, beside := None, [];
    if node.plus.Some? {
      var p, s := MatchAndDispatch(node.plus.value, levels, depth + 1, closed);
      plus, beside := Some(p), s;
    }
    changed, sends := node.(hash := own, children := children, plus := plus), own + (below + beside);
  }

  class TopicRouter {
    var root: Node
    /** Every send attempted so far, oldest first. */
    var sent: seq<Sender>
    /** The live registrations, oldest first. */
    ghost var regs: seq<Reg>

    ghost predicate Valid()
      reads this
    {
      Agrees(root, regs) && WellFormed(regs)
    }

    constructor ()
      ensures Valid() && regs == [] && sent == []
    {
      root, sent, regs := EMPTY, [], [];
    }

    method Insert(filter: string, sender: Sender) returns (r: Result<(), FilterError>)
      requires Valid()
      modifies this
      ensures Valid() && sent == old(sent)
      ensures r.Success? <==> ValidFilter(filter)
      ensures regs == if ValidFilter(filter) then old(regs) + [Reg(Split(filter), sender)] else old(regs)
      ensures Tidy(old(root)) ==> Tidy(root)
    {
      var _ :- ValidateTopicFilter(filter);
      var levels := Split(filter);
      assert levels[0..] == levels;
      InsertAgrees(root, regs, levels, sender);
      if Tidy(root) {
        InsertedTidy(root, levels, sender);
      }
      root := InsertInto(root, levels, 0, sender);
      regs := regs + [Reg(levels, sender)];
      return Success(());
    }

    method Remove(filter: string) returns (r: Result<(), FilterError>)
      requires Valid()
      modifies this
      ensures Valid() && sent == old(sent)
      ensures r.Success? <==> ValidFilter(filter)
      ensures regs == if ValidFilter(filter) then Without(old(regs), Split(filter)) else old(regs)
      ensures Tidy(old(root)) ==> Tidy(root)
    {
      var _ :- ValidateTopicFilter(filter);
      var levels := Split(filter);
      assert levels[0..] == levels;
      RemoveAgrees(root, regs, levels);
      WithoutWellFormed(regs, levels);
      if Tidy(root) {
        RemovedTidy(root, levels);
      }
      var changed, _ := RemoveRecursive(root, levels, 0);
      root := changed;
      regs := Without(regs, levels);
      return Success(());
    }

    /** `closed` are the senders whose receiver is gone at the time of the dispatch. */
    method Dispatch(topic: string, closed: set<Sender>)
      requires Valid()
      modifies this
      ensures Valid()
      ensures |sent| >= |old(sent)| && sent[..|old(sent)|] == old(sent)
      ensures multiset(sent[|old(sent)|..]) == multiset(Targets(old(regs), Split(topic), closed))
      ensures regs == Cleared(old(regs), Split(topic), closed)
      ensures closed == {} ==> root == old(root)
    {
      var levels := Split(topic);
      assert levels[0..] == levels;
      SendsAreTargets(root, regs, levels, closed);
      SweptAgrees(root, regs, levels, closed);
      ClearedWellFormed(regs, levels, closed);
      if closed == {} {
        OpenDispatchChangesNothing(root, levels);
      }
      var changed, sends := MatchAndDispatch(root, levels, 0, closed);
      root := changed;
      sent := sent + sends;
      regs := Cleared(regs, levels, closed);
    }
  }

  lemma {:induction false} ClearedWellFormed(regs: seq<Reg>, topic: seq<string>, closed: set<Sender>)
    requires WellFormed(regs)
    ensures WellFormed(Cleared(regs, topic, closed))
  {
    if regs != [] {
      ClearedWellFormed(regs[1..], topic, closed);
      assert regs[0] in regs;
    }
  }

  // ---- Whole histories ----

  datatype Op =
    | Insert(filter: string, sender: Sender)
    | Remove(filter: string)
    | Dispatch(topic: string, closed: set<Sender>)

  function OnTrie(t: Node, op: Op): Node {
    match op
    case Insert(f, s) => if ValidFilter(f) then Inserted(t, Split(f), s) else t
    case Remove(f) => if ValidFilter(f) then Removed(t, Split(f)) else t
    case Dispatch(topic, closed) => Swept(t, Split(topic), closed)
  }

  function OnList(regs: seq<Reg>, op: Op): seq<Reg> {
    match op
    case Insert(f, s) => if ValidFilter(f) then regs + [Reg(Split(f), s)] else regs
    case Remove(f) => if ValidFilter(f) then Without(regs, Split(f)) else regs
    case Dispatch(topic, closed) => Cleared(regs, Split(topic), closed)
  }

  function TrieAfter(t: Node, ops: seq<Op>): Node
    decreases |ops|
  {
    if ops == [] then t else TrieAfter(OnTrie(t, ops[0]), ops[1..])
  }

  function ListAfter(regs: seq<Reg>, ops: seq<Op>): seq<Reg>
    decreases |ops|
  {
    if ops == [] then regs else ListAfter(OnList(regs, ops[0]), ops[1..])
  }

  lemma StepAgrees(t: Node, regs: seq<Reg>, op: Op)
    requires Agrees(t, regs) && WellFormed(regs)
    ensures Agrees(OnTrie(t, op), OnList(regs, op)) && WellFormed(OnList(regs, op))
  {
    match op
    case Insert(f, s) => if ValidFilter(f) { InsertAgrees(t, regs, Split(f), s); }
    case Remove(f) => if ValidFilter(f) { RemoveAgrees(t, regs, Split(f)); WithoutWellFormed(regs, Split(f)); }
    case Dispatch(topic, closed) =>
      SweptAgrees(t, regs, Split(topic), closed);
      ClearedWellFormed(regs, Split(topic), closed);
  }

  lemma {:induction false} HistoryAgrees(t: Node, regs: seq<Reg>, ops: seq<Op>)
    requires Agrees(t, regs) && WellFormed(regs)
    ensures Agrees(TrieAfter(t, ops), ListAfter(regs, ops)) && WellFormed(ListAfter(regs, ops))
    decreases |ops|
  {
    if ops != [] {
      StepAgrees(t, regs, ops[0]);
      hide Agrees, WellFormed, OnTrie, OnList;
      HistoryAgrees(OnTrie(t, ops[0]), OnList(regs, ops[0]), ops[1..]);
    }
  }

  /** After any history, a dispatch sends exactly once for each live registration that matches, and to no other. */
  lemma DispatchAfterAnyHistory(ops: seq<Op>, topic: string, closed: set<Sender>)
    ensures multiset(Sends(TrieAfter(EMPTY, ops), Split(topic), closed))
         == multiset(Targets(ListAfter([], ops), Split(topic), closed))
  {
    EmptyAgrees();
    HistoryAgrees(EMPTY, [], ops);
    SendsAreTargets(TrieAfter(EMPTY, ops), ListAfter([], ops), Split(topic), closed);
  }

  /** While no dispatch meets a closed sender, the trie stays tidy. */
  lemma {:induction false} HistoryIsTidy(t: Node, ops: seq<Op>)
    requires Tidy(t) && forall op :: op in ops && op.Dispatch? ==> op.closed == {}
    ensures Tidy(TrieAfter(t, ops))
    decreases |ops|
  {
    if ops != [] {
      assert ops[0] in ops;
      match ops[0] {
        case Insert(f, s) => if ValidFilter(f) { InsertedTidy(t, Split(f), s); }
        case Remove(f) => if ValidFilter(f) { RemovedTidy(t, Split(f)); }
        case Dispatch(topic, _) => OpenDispatchChangesNothing(t, Split(topic));
      }
      hide Tidy, OnTrie;
      HistoryIsTidy(OnTrie(t, ops[0]), ops[1..]);
    }
  }

  /** Two histories without closed senders that leave the same senders per filter leave identical tries. */
  lemma HistoriesAreCanonical(ops: seq<Op>, others: seq<Op>)
    requires forall op :: op in ops && op.Dispatch? ==> op.closed == {}
    requires forall op :: op in others && op.Dispatch? ==> op.closed == {}
    requires SameLists(ListAfter([], ops), ListAfter([], others))
    ensures TrieAfter(EMPTY, ops) == TrieAfter(EMPTY, others)
  {
    EmptyAgrees();
    HistoryAgrees(EMPTY, [], ops);
    HistoryAgrees(EMPTY, [], others);
    HistoryIsTidy(EMPTY, ops);
    HistoryIsTidy(EMPTY, others);
    Canonical(TrieAfter(EMPTY, ops), ListAfter([], ops), TrieAfter(EMPTY, others), ListAfter([], others));
  }

  /**
   In a tidy router, a dispatch leaves no empty node behind if and only if every path of nodes that some registration
   uses is still used once the closed senders it meets are gone.
   */
  lemma DispatchTidyIff(t: Node, regs: seq<Reg>, topic: string, closed: set<Sender>)
    requires Tidy(t) && Agrees(t, regs) && WellFormed(regs)
    ensures Tidy(OnTrie(t, Dispatch(topic, closed))) <==> PathsStay(regs, OnList(regs, Dispatch(topic, closed)))
  {
    ClearedWellFormed(regs, Split(topic), closed);
    hide Tidy, Agrees, WellFormed, PathsStay;
    SweptTidyIff(t, regs, Split(topic), closed);
  }

  /** A dispatch that meets a closed sender may leave an empty node behind, so tidiness is lost. */
  lemma ClosedSenderLeavesEmptyNode()
    ensures var t := Inserted(EMPTY, ["a"], 7);
            Tidy(t) && !Tidy(Swept(t, ["a"], {7}))
  {
    var t := Inserted(EMPTY, ["a"], 7);
    InsertedTidy(EMPTY, ["a"], 7);
    assert ["a"][1..] == [];
    var leaf := t.children["a"];
    assert leaf == Node(map[], None, [], [7]);
    var swept := Swept(t, ["a"], {7});
    assert swept.children["a"] == Swept(leaf, [], {7});
    assert Open([7], {7}) == IfOpen(7, {7}) + Open([], {7});
    assert IsEmpty(swept.children["a"]);
  }
}
