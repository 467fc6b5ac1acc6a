/**
 The topic trie as a value, and its agreement with the plain list of registrations
 (crates/mqtt-tokio/src/router.rs).
 */
module Trie {
  import opened Wrappers
  import opened Bytes
  import opened Topics

  /** A subscriber channel. */
  type Sender = nat

  datatype Node = Node(children: map<string, Node>, plus: Option<Node>, hash: seq<Sender>, exact: seq<Sender>)

  const EMPTY: Node := Node(map[], None, [], [])

  predicate IsEmpty(t: Node) {
    t.children == map[] && t.plus.None? && t.hash == [] && t.exact == []
  }

  function ChildOr(t: Node, level: string): Node {
    if level in t.children then t.children[level] else EMPTY
  }

  function PlusOr(t: Node): Node {
    match t.plus
    case Some(p) => p
    case None => EMPTY
  }

  /** `insert`, below a node. */
  function Inserted(t: Node, filter: seq<string>, s: Sender): Node
    decreases |filter|
  {
    if filter == [] then t.(exact := t.exact + [s])
    else if filter[0] == "#" then t.(hash := t.hash + [s])
    else if filter[0] == "+" then t.(plus := Some(Inserted(PlusOr(t), filter[1..], s)))
    else t.(children := t.children[filter[0] := Inserted(ChildOr(t, filter[0]), filter[1..], s)])
  }

  /** `remove_recursive`: what becomes of the node; the parent drops it when it is empty. */
  function Removed(t: Node, filter: seq<string>): Node
    decreases |filter|
  {
    if filter == [] then t.(exact := [])
    else if filter[0] == "#" then t.(hash := [])
    else if filter[0] == "+" then
      match t.plus
      case None => t
      case Some(p) =>
        var p' := Removed(p, filter[1..]);
        t.(plus := if IsEmpty(p') then None else Some(p'))
    else if filter[0] in t.children then
      var c := Removed(t.children[filter[0]], filter[1..]);
      t.(children := if IsEmpty(c) then t.children - {filter[0]} else t.children[filter[0] := c])
    else t
  }

  function IfOpen(s: Sender, closed: set<Sender>): seq<Sender> {
    if s in closed then [] else [s]
  }

  /** Senders that are not closed; only these are sent to and kept. */
  function Open(senders: seq<Sender>, closed: set<Sender>): seq<Sender> {
    if senders == [] then [] else IfOpen(senders[0], closed) + Open(senders[1..], closed)
  }

  /** `match_and_dispatch`: the sends attempted, in order. */
  function Sends(t: Node, topic: seq<string>, closed: set<Sender>): seq<Sender>
    decreases |topic|
  {
    Open(t.hash, closed)
    + if topic == [] then Open(t.exact, closed)
      else
        (if topic[0] in t.children then Sends(t.children[topic[0]], topic[1..], closed) else [])
        + (if t.plus.Some? then Sends(t.plus.value, topic[1..], closed) else [])
  }

  /** `match_and_dispatch`: the node afterwards, without the closed senders it came across. */
  function Swept(t: Node, topic: seq<string>, closed: set<Sender>): Node
    decreases |topic|
  {
    var t := t.(hash := Open(t.hash, closed));
    if topic == [] then t.(exact := Open(t.exact, closed))
    else
      t.(children := if topic[0] in t.children
                     then t.children[topic[0] := Swept(t.children[topic[0]], topic[1..], closed)] else t.children,
         plus := if t.plus.Some? then Some(Swept(t.plus.value, topic[1..], closed)) else None)
  }

  // ---- The plain list ----

  datatype Reg = Reg(filter: seq<string>, sender: Sender)

  /** A registration seen from one level below, if its filter starts with `level`. */
  function Below(r: Reg, level: string): seq<Reg> {
    if r.filter != [] && r.filter[0] == level then [Reg(r.filter[1..], r.sender)] else []
  }

  /** Registrations whose filter starts with `level`, seen from one level below. */
  function Under(regs: seq<Reg>, level: string): seq<Reg> {
    if regs == [] then [] else Below(regs[0], level) + Under(regs[1..], level)
  }

  function SenderFor(r: Reg, filter: seq<string>): seq<Sender> {
    if r.filter == filter then [r.sender] else []
  }

  /** The senders registered for a filter, oldest first. */
  function SendersFor(regs: seq<Reg>, filter: seq<string>): seq<Sender> {
    if regs == [] then [] else SenderFor(regs[0], filter) + SendersFor(regs[1..], filter)
  }

  function Spared(r: Reg, filter: seq<string>): seq<Reg> {
    if r.filter == filter then [] else [r]
  }

  function Without(regs: seq<Reg>, filter: seq<string>): seq<Reg> {
    if regs == [] then [] else Spared(regs[0], filter) + Without(regs[1..], filter)
  }

  function Target(r: Reg, topic: seq<string>, closed: set<Sender>): seq<Sender> {
    if Matches(r.filter, topic) && r.sender !in closed then [r.sender] else []
  }

  /** One send for each live registration whose filter matches. */
  function Targets(regs: seq<Reg>, topic: seq<string>, closed: set<Sender>): seq<Sender> {
    if regs == [] then [] else Target(regs[0], topic, closed) + Targets(regs[1..], topic, closed)
  }

  function Kept(r: Reg, topic: seq<string>, closed: set<Sender>): seq<Reg> {
    if Matches(r.filter, topic) && r.sender in closed then [] else [r]
  }

  /** Closed registrations that match are dropped, and nothing else. */
  function Cleared(regs: seq<Reg>, topic: seq<string>, closed: set<Sender>): seq<Reg> {
    if regs == [] then [] else Kept(regs[0], topic, closed) + Cleared(regs[1..], topic, closed)
  }

  ghost predicate WellFormed(regs: seq<Reg>) {
    forall r :: r in regs ==> HashIsLast(r.filter)
  }

  /** The node's own lists are those of the registrations, and nothing is registered where a child is missing. */
  ghost predicate AgreesHere(t: Node, regs: seq<Reg>) {
    && t.hash == SendersFor(regs, ["#"])
    && t.exact == SendersFor(regs, [])
    && (t.plus.None? ==> Under(regs, "+") == [])
    && "#" !in t.children && "+" !in t.children
    && (forall k :: k !in t.children && k != "#" && k != "+" ==> Under(regs, k) == [])
  }

  /** The trie holds exactly the registrations of the list, in the list's order at every filter. */
  ghost predicate Agrees(t: Node, regs: seq<Reg>)
    decreases t
  {
    && AgreesHere(t, regs)
    && (t.plus.Some? ==> Agrees(t.plus.value, Under(regs, "+")))
    && (forall k :: k in t.children ==> Agrees(t.children[k], Under(regs, k)))
  }

  /** The same, with the children's agreement taken as it is. */
  lemma AgreesFolds(t: Node, regs: seq<Reg>)
    requires AgreesHere(t, regs)
    requires t.plus.Some? ==> Agrees(t.plus.value, Under(regs, "+"))
    requires forall k :: k in t.children ==> Agrees(t.children[k], Under(regs, k))
    ensures Agrees(t, regs)
  {
  }

  lemma AgreesUnfolds(t: Node, regs: seq<Reg>)
    requires Agrees(t, regs)
    ensures AgreesHere(t, regs)
    ensures t.plus.Some? ==> Agrees(t.plus.value, Under(regs, "+"))
    ensures forall k :: k in t.children ==> Agrees(t.children[k], Under(regs, k))
  {
  }

  /** The two lists differ only in what they register under `level`. */
  ghost predicate SameBut(regs: seq<Reg>, regs': seq<Reg>, level: string) {
    && SendersFor(regs, []) == SendersFor(regs', []) && SendersFor(regs, ["#"]) == SendersFor(regs', ["#"])
    && (forall k :: k != level && k != "#" ==> Under(regs, k) == Under(regs', k))
  }

  lemma PutPlus(t: Node, regs: seq<Reg>, regs': seq<Reg>, c: Option<Node>)
    requires Agrees(t, regs) && SameBut(regs, regs', "+")
    requires if c.Some? then Agrees(c.value, Under(regs', "+")) else Under(regs', "+") == []
    ensures Agrees(t.(plus := c), regs')
  {
    AgreesUnfolds(t, regs);
    hide Under, SendersFor, Agrees;
    AgreesFolds(t.(plus := c), regs');
  }

  /** The two maps differ only at `level`. */
  ghost predicate SameElsewhere(a: map<string, Node>, b: map<string, Node>, level: string) {
    forall k :: k != level ==> (k in a <==> k in b) && (k in a ==> a[k] == b[k])
  }

  lemma PutNamed(t: Node, regs: seq<Reg>, regs': seq<Reg>, level: string, children: map<string, Node>)
    requires Agrees(t, regs) && SameBut(regs, regs', level) && level != "#" && level != "+"
    requires SameElsewhere(children, t.children, level)
    requires if level in children then Agrees(children[level], Under(regs', level)) else Under(regs', level) == []
    ensures Agrees(t.(children := children), regs')
  {
    AgreesUnfolds(t, regs);
    hide Under, SendersFor, Agrees;
    AgreesFolds(t.(children := children), regs');
  }

  lemma UpdateIsElsewhereSame(children: map<string, Node>, level: string, c: Node)
    ensures SameElsewhere(children[level := c], children, level) && SameElsewhere(children - {level}, children, level)
  {
  }

  lemma PutChild(t: Node, regs: seq<Reg>, regs': seq<Reg>, level: string, c: Node)
    requires Agrees(t, regs) && SameBut(regs, regs', level) && Agrees(c, Under(regs', level)) && level != "#"
    ensures level == "+" ==> Agrees(t.(plus := Some(c)), regs')
    ensures level != "+" ==> Agrees(t.(children := t.children[level := c]), regs')
  {
    hide *;
    if level == "+" {
      PutPlus(t, regs, regs', Some(c));
    } else {
      UpdateIsElsewhereSame(t.children, level, c);
      PutNamed(t, regs, regs', level, t.children[level := c]);
    }
  }

  lemma DropChild(t: Node, regs: seq<Reg>, regs': seq<Reg>, level: string)
    requires Agrees(t, regs) && SameBut(regs, regs', level) && Under(regs', level) == [] && level != "#"
    ensures level == "+" ==> Agrees(t.(plus := None), regs')
    ensures level != "+" ==> Agrees(t.(children := t.children - {level}), regs')
  {
    hide *;
    if level == "+" {
      PutPlus(t, regs, regs', None);
    } else {
      UpdateIsElsewhereSame(t.children, level, t);
      PutNamed(t, regs, regs', level, t.children - {level});
    }
  }

  lemma PutOwn(t: Node, regs: seq<Reg>, regs': seq<Reg>)
    requires Agrees(t, regs) && forall k :: k != "#" ==> Under(regs, k) == Under(regs', k)
    ensures Agrees(t.(hash := SendersFor(regs', ["#"]), exact := SendersFor(regs', [])), regs')
  {
    AgreesUnfolds(t, regs);
    hide Under, SendersFor, Agrees;
    AgreesFolds(t.(hash := SendersFor(regs', ["#"]), exact := SendersFor(regs', [])), regs');
  }

  // ---- Lists, one level down ----

  lemma {:induction false} UnderAppend(a: seq<Reg>, b: seq<Reg>, level: string)
    ensures Under(a + b, level) == Under(a, level) + Under(b, level)
  {
    hide Below;
    if a == [] {
      assert a + b == b;
    } else {
      UnderAppend(a[1..], b, level);
      assert (a + b)[1..] == a[1..] + b;
    }
  }

  lemma {:induction false} SendersAppend(a: seq<Reg>, b: seq<Reg>, filter: seq<string>)
    ensures SendersFor(a + b, filter) == SendersFor(a, filter) + SendersFor(b, filter)
  {
    hide *;
    SendersCons(a, filter);
    SendersCons(a + b, filter);
    if a == [] {
      assert a + b == b;
    } else {
      SendersAppend(a[1..], b, filter);
      assert (a + b)[1..] == a[1..] + b;
      Associative(SenderFor(a[0], filter), SendersFor(a[1..], filter), SendersFor(b, filter));
    }
  }

  lemma SendersCons(regs: seq<Reg>, filter: seq<string>)
    ensures SendersFor(regs, filter)
         == if regs == [] then [] else SenderFor(regs[0], filter) + SendersFor(regs[1..], filter)
  {
  }

  lemma {:induction false} UnderWellFormed(regs: seq<Reg>, level: string)
    requires WellFormed(regs)
    ensures WellFormed(Under(regs, level))
  {
    if regs != [] {
      UnderWellFormed(regs[1..], level);
      assert regs[0] in regs;
      var f := regs[0].filter;
      assert f != [] ==> HashIsLast(f[1..]);
    }
  }

  lemma {:induction false} UnderSenders(regs: seq<Reg>, level: string, filter: seq<string>)
    requires filter != [] && filter[0] == level
    ensures SendersFor(regs, filter) == SendersFor(Under(regs, level), filter[1..])
  {
    if regs != [] {
      UnderSenders(regs[1..], level, filter);
      var f := regs[0].filter;
      SendersAppend(Below(regs[0], level), Under(regs[1..], level), filter[1..]);
      assert filter == [level] + filter[1..];
      assert f != [] && f[0] == level ==> f == [level] + f[1..];
    }
  }

  lemma {:induction false} WithoutAppend(a: seq<Reg>, b: seq<Reg>, filter: seq<string>)
    ensures Without(a + b, filter) == Without(a, filter) + Without(b, filter)
  {
    hide Spared;
    if a == [] {
      assert a + b == b;
    } else {
      WithoutAppend(a[1..], b, filter);
      assert (a + b)[1..] == a[1..] + b;
    }
  }

  lemma {:induction false} UnderWithout(regs: seq<Reg>, filter: seq<string>, level: string)
    ensures Under(Without(regs, filter), level)
         == if filter != [] && filter[0] == level then Without(Under(regs, level), filter[1..]) else Under(regs, level)
  {
    if regs != [] {
      var r := regs[0];
      UnderWithout(regs[1..], filter, level);
      UnderAppend(Spared(r, filter), Without(regs[1..], filter), level);
      if filter != [] && filter[0] == level {
        WithoutAppend(Below(r, level), Under(regs[1..], level), filter[1..]);
        assert filter == [level] + filter[1..];
        assert r.filter != [] && r.filter[0] == level ==> r.filter == [level] + r.filter[1..];
      }
    }
  }

  lemma {:induction false} SendersWithout(regs: seq<Reg>, filter: seq<string>, other: seq<string>)
    ensures SendersFor(Without(regs, filter), other) == if filter == other then [] else SendersFor(regs, other)
  {
    if regs != [] {
      SendersWithout(regs[1..], filter, other);
      SendersAppend(Spared(regs[0], filter), Without(regs[1..], filter), other);
    }
  }

  // ---- Insert ----

  lemma EmptyAgrees()
    ensures Agrees(EMPTY, [])
  {
  }

  /** A missing child counts as an empty node. */
  lemma ChildAgrees(t: Node, regs: seq<Reg>, level: string)
    requires Agrees(t, regs) && level != "#"
    ensures level == "+" ==> Agrees(PlusOr(t), Under(regs, level))
    ensures level != "+" ==> Agrees(ChildOr(t, level), Under(regs, level))
  {
    EmptyAgrees();
  }

  lemma UnderAdded(regs: seq<Reg>, filter: seq<string>, s: Sender, level: string)
    ensures Under(regs + [Reg(filter, s)], level)
         == if filter != [] && filter[0] == level then Under(regs, level) + [Reg(filter[1..], s)]
            else Under(regs, level)
  {
    UnderAppend(regs, [Reg(filter, s)], level);
  }

  lemma SendersAdded(regs: seq<Reg>, filter: seq<string>, s: Sender, other: seq<string>)
    ensures SendersFor(regs + [Reg(filter, s)], other)
         == SendersFor(regs, other) + (if filter == other then [s] else [])
  {
    SendersAppend(regs, [Reg(filter, s)], other);
  }

  lemma AddedFacts(regs: seq<Reg>, filter: seq<string>, s: Sender)
    ensures forall level :: Under(regs + [Reg(filter, s)], level)
                         == if filter != [] && filter[0] == level then Under(regs, level) + [Reg(filter[1..], s)]
                            else Under(regs, level)
    ensures forall other :: SendersFor(regs + [Reg(filter, s)], other)
                         == if filter == other then SendersFor(regs, other) + [s] else SendersFor(regs, other)
  {
    forall level { UnderAdded(regs, filter, s, level); }
    forall other { SendersAdded(regs, filter, s, other); }
  }

  lemma {:induction false} InsertAgrees(t: Node, regs: seq<Reg>, filter: seq<string>, s: Sender)
    requires Agrees(t, regs) && HashIsLast(filter)
    ensures Agrees(Inserted(t, filter, s), regs + [Reg(filter, s)])
    decreases |filter|
  {
    var all := regs + [Reg(filter, s)];
    AddedFacts(regs, filter, s);
    hide Under, SendersFor, Agrees;
    if filter != [] && filter[0] != "#" {
      var c := if filter[0] == "+" then PlusOr(t) else ChildOr(t, filter[0]);
      ChildAgrees(t, regs, filter[0]);
      InsertAgrees(c, Under(regs, filter[0]), filter[1..], s);
      PutChild(t, regs, all, filter[0], Inserted(c, filter[1..], s));
    } else {
      AgreesUnfolds(t, regs);
      assert filter != [] ==> filter == ["#"];
      PutOwn(t, regs, all);
    }
  }

  // ---- Remove ----

  /** A registration shows up somewhere. */
  lemma SomethingShows(regs: seq<Reg>)
    requires WellFormed(regs) && regs != []
    ensures SendersFor(regs, []) != [] || SendersFor(regs, ["#"]) != []
            || exists level :: level != "#" && Under(regs, level) != []
  {
    var f := regs[0].filter;
    assert regs[0] in regs;
    if f != [] && f[0] == "#" {
      assert f == ["#"];
    } else if f != [] {
      assert Under(regs, f[0]) != [];
    }
  }

  /** An empty node means that nothing is registered below it. */
  lemma EmptyMeansNothing(t: Node, regs: seq<Reg>)
    requires Agrees(t, regs) && IsEmpty(t) && WellFormed(regs)
    ensures regs == []
  {
    if regs != [] {
      SomethingShows(regs);
    }
  }

  lemma WithoutFacts(regs: seq<Reg>, filter: seq<string>)
    ensures forall level :: Under(Without(regs, filter), level)
                         == if filter != [] && filter[0] == level then Without(Under(regs, level), filter[1..])
                            else Under(regs, level)
    ensures forall other :: SendersFor(Without(regs, filter), other)
                         == if filter == other then [] else SendersFor(regs, other)
    ensures Without([], filter) == []
  {
    forall level { UnderWithout(regs, filter, level); }
    forall other { SendersWithout(regs, filter, other); }
  }

  lemma {:induction false} RemoveAgrees(t: Node, regs: seq<Reg>, filter: seq<string>)
    requires Agrees(t, regs) && HashIsLast(filter) && WellFormed(regs)
    ensures Agrees(Removed(t, filter), Without(regs, filter))
    decreases |filter|, 1
  {
    WithoutFacts(regs, filter);
    hide Under, SendersFor, Without, Agrees;
    if filter == [] || filter[0] == "#" {
      AgreesUnfolds(t, regs);
      assert filter != [] ==> filter == ["#"];
      PutOwn(t, regs, Without(regs, filter));
    } else {
      UnderWellFormed(regs, filter[0]);
      RemoveBelow(t, regs, Without(regs, filter), filter);
    }
  }

  lemma RemoveBelow(t: Node, regs: seq<Reg>, regs': seq<Reg>, filter: seq<string>)
    requires Agrees(t, regs) && HashIsLast(filter) && filter != [] && filter[0] != "#"
    requires WellFormed(Under(regs, filter[0])) && SameBut(regs, regs', filter[0])
    requires Under(regs', filter[0]) == Without(Under(regs, filter[0]), filter[1..])
    ensures Agrees(Removed(t, filter), regs')
    decreases |filter|, 0
  {
    hide *;
    var level := filter[0];
    AgreesBelow(t, regs, level);
    RemovedBelow(t, filter);
    HashStaysLast(filter);
    if HasChild(t, level) {
      var c := Child(t, level);
      RemoveChild(c, Under(regs, level), filter[1..]);
      if IsEmpty(Removed(c, filter[1..])) {
        DropChild(t, regs, regs', level);
      } else {
        PutChild(t, regs, regs', level, Removed(c, filter[1..]));
      }
    } else {
      WithoutNothing(filter[1..]);
      DropChild(t, regs, regs', level);
    }
  }

  predicate HasChild(t: Node, level: string) {
    if level == "+" then t.plus.Some? else level in t.children
  }

  function Child(t: Node, level: string): (c: Node)
    requires HasChild(t, level)
  {
    if level == "+" then t.plus.value else t.children[level]
  }

  lemma AgreesBelow(t: Node, regs: seq<Reg>, level: string)
    requires Agrees(t, regs) && level != "#"
    ensures HasChild(t, level) ==> Agrees(Child(t, level), Under(regs, level)) && Child(t, level) < t
    ensures !HasChild(t, level) ==> Under(regs, level) == []
    ensures !HasChild(t, level) ==> if level == "+" then t.plus == None else t.children - {level} == t.children
  {
    AgreesUnfolds(t, regs);
    hide Agrees, Under, SendersFor;
  }

  /** Removal one level down, and what becomes of the child there. */
  lemma RemovedBelow(t: Node, filter: seq<string>)
    requires filter != [] && filter[0] != "#"
    ensures !HasChild(t, filter[0]) ==> Removed(t, filter) == t
    ensures HasChild(t, filter[0]) ==>
              var level, c := filter[0], Removed(Child(t, filter[0]), filter[1..]);
              Removed(t, filter) == if level == "+" then t.(plus := if IsEmpty(c) then None else Some(c))
                                    else t.(children := if IsEmpty(c) then t.children - {level}
                                                        else t.children[level := c])
  {
    hide IsEmpty;
  }

  lemma HashStaysLast(filter: seq<string>)
    requires HashIsLast(filter) && filter != []
    ensures HashIsLast(filter[1..])
  {
  }

  lemma WithoutNothing(filter: seq<string>)
    ensures Without([], filter) == []
  {
  }

  /** Removal in a child, which is dropped when nothing is left in it. */
  lemma RemoveChild(c: Node, below: seq<Reg>, filter: seq<string>)
    requires Agrees(c, below) && HashIsLast(filter) && WellFormed(below)
    ensures Agrees(Removed(c, filter), Without(below, filter))
    ensures IsEmpty(Removed(c, filter)) ==> Without(below, filter) == []
    decreases |filter|, 2
  {
    WithoutWellFormed(below, filter);
    RemoveAgrees(c, below, filter);
    if IsEmpty(Removed(c, filter)) {
      EmptyMeansNothing(Removed(c, filter), Without(below, filter));
    }
  }

  lemma {:induction false} WithoutWellFormed(regs: seq<Reg>, filter: seq<string>)
    requires WellFormed(regs)
    ensures WellFormed(Without(regs, filter))
  {
    if regs != [] {
      WithoutWellFormed(regs[1..], filter);
      assert regs[0] in regs;
    }
  }

  // ---- Dispatch ----

  lemma {:induction false} OpenAppend(a: seq<Sender>, b: seq<Sender>, closed: set<Sender>)
    ensures Open(a + b, closed) == Open(a, closed) + Open(b, closed)
  {
    hide IfOpen;
    if a == [] {
      assert a + b == b;
    } else {
      OpenAppend(a[1..], b, closed);
      assert (a + b)[1..] == a[1..] + b;
      Associative(IfOpen(a[0], closed), Open(a[1..], closed), Open(b, closed));
    }
  }

  lemma {:induction false} TargetsAppend(a: seq<Reg>, b: seq<Reg>, topic: seq<string>, closed: set<Sender>)
    ensures Targets(a + b, topic, closed) == Targets(a, topic, closed) + Targets(b, topic, closed)
  {
    hide Target;
    if a == [] {
      assert a + b == b;
    } else {
      TargetsAppend(a[1..], b, topic, closed);
      assert (a + b)[1..] == a[1..] + b;
    }
  }

  // What the list says is sent from a node: its own senders, then those below the levels that match.

  ghost function HashPart(regs: seq<Reg>, closed: set<Sender>): multiset<Sender> {
    multiset(Open(SendersFor(regs, ["#"]), closed))
  }

  ghost function ExactPart(regs: seq<Reg>, topic: seq<string>, closed: set<Sender>): multiset<Sender> {
    if topic == [] then multiset(Open(SendersFor(regs, []), closed)) else multiset{}
  }

  ghost function LevelPart(regs: seq<Reg>, topic: seq<string>, closed: set<Sender>): multiset<Sender> {
    if topic == [] || topic[0] == "+" || topic[0] == "#" then multiset{}
    else multiset(Targets(Under(regs, topic[0]), topic[1..], closed))
  }

  ghost function PlusPart(regs: seq<Reg>, topic: seq<string>, closed: set<Sender>): multiset<Sender> {
    if topic == [] then multiset{} else multiset(Targets(Under(regs, "+"), topic[1..], closed))
  }

  ghost function Parts(regs: seq<Reg>, topic: seq<string>, closed: set<Sender>): multiset<Sender> {
    HashPart(regs, closed) + ExactPart(regs, topic, closed)
    + (LevelPart(regs, topic, closed) + PlusPart(regs, topic, closed))
  }

  lemma SinglesAre(r: Reg)
    ensures forall k :: Under([r], k) == Below(r, k)
    ensures forall f :: SendersFor([r], f) == SenderFor(r, f)
  {
  }

  lemma TargetsOfOne(r: Reg, topic: seq<string>, closed: set<Sender>)
    ensures Targets([r], topic, closed) == Target(r, topic, closed)
    ensures Targets([], topic, closed) == []
    ensures Open([], closed) == [] && Open([r.sender], closed) == IfOpen(r.sender, closed)
  {
    assert Targets([r], topic, closed) == Target(r, topic, closed) + [];
    assert Open([r.sender], closed) == IfOpen(r.sender, closed) + [];
  }

  /** The four parts of a single registration. */
  lemma OwnOfOne(r: Reg, topic: seq<string>, closed: set<Sender>)
    ensures HashPart([r], closed) == if r.filter == ["#"] then multiset(IfOpen(r.sender, closed)) else multiset{}
    ensures ExactPart([r], topic, closed)
         == if topic == [] && r.filter == [] then multiset(IfOpen(r.sender, closed)) else multiset{}
  {
    SinglesAre(r);
    TargetsOfOne(r, topic, closed);
    hide SendersFor, Open, IfOpen;
  }

  lemma LowerOfOne(r: Reg, topic: seq<string>, closed: set<Sender>)
    requires r.filter != [] && topic != []
    ensures var below := multiset(Target(Reg(r.filter[1..], r.sender), topic[1..], closed));
            && LevelPart([r], topic, closed)
            == (if r.filter[0] == topic[0] && topic[0] != "+" && topic[0] != "#" then below else multiset{})
            && PlusPart([r], topic, closed) == (if r.filter[0] == "+" then below else multiset{})
  {
    SinglesAre(r);
    TargetsOfOne(Reg(r.filter[1..], r.sender), topic[1..], closed);
    hide Under, Targets, Target;
  }

  lemma LowerOfNone(r: Reg, topic: seq<string>, closed: set<Sender>)
    requires r.filter == [] || topic == []
    ensures LevelPart([r], topic, closed) == multiset{} && PlusPart([r], topic, closed) == multiset{}
  {
    SinglesAre(r);
    TargetsOfOne(r, if topic == [] then [] else topic[1..], closed);
    hide Under, Targets, Target;
  }

  lemma OwnPartsOfOne(r: Reg, topic: seq<string>, closed: set<Sender>)
    requires r.filter == [] || r.filter == ["#"]
    ensures Parts([r], topic, closed) == multiset(Target(r, topic, closed))
  {
    OwnOfOne(r, topic, closed);
    MatchesStep(r.filter, topic);
    if r.filter == [] || topic == [] {
      LowerOfNone(r, topic, closed);
    } else {
      LowerOfOne(r, topic, closed);
    }
    hide Matches, HashPart, ExactPart, LevelPart, PlusPart;
  }

  lemma LowerPartsOfOne(r: Reg, topic: seq<string>, closed: set<Sender>)
    requires HashIsLast(r.filter) && r.filter != [] && r.filter[0] != "#"
    ensures Parts([r], topic, closed) == multiset(Target(r, topic, closed))
  {
    OwnOfOne(r, topic, closed);
    MatchesStep(r.filter, topic);
    if topic == [] {
      LowerOfNone(r, topic, closed);
    } else {
      LowerOfOne(r, topic, closed);
    }
    hide Matches, HashPart, ExactPart, LevelPart, PlusPart;
    assert r.filter != ["#"];
  }

  lemma PartsOfOne(r: Reg, topic: seq<string>, closed: set<Sender>)
    requires HashIsLast(r.filter)
    ensures Parts([r], topic, closed) == multiset(Target(r, topic, closed))
  {
    if r.filter == [] || r.filter[0] == "#" {
      OwnPartsOfOne(r, topic, closed);
    } else {
      LowerPartsOfOne(r, topic, closed);
    }
  }

  lemma OwnPartsAppend(a: seq<Reg>, b: seq<Reg>, topic: seq<string>, closed: set<Sender>)
    ensures HashPart(a + b, closed) == HashPart(a, closed) + HashPart(b, closed)
    ensures ExactPart(a + b, topic, closed) == ExactPart(a, topic, closed) + ExactPart(b, topic, closed)
  {
    SendersAppend(a, b, ["#"]);
    SendersAppend(a, b, []);
    OpenAppend(SendersFor(a, ["#"]), SendersFor(b, ["#"]), closed);
    OpenAppend(SendersFor(a, []), SendersFor(b, []), closed);
    hide SendersFor, Open;
  }

  lemma LowerPartsAppend(a: seq<Reg>, b: seq<Reg>, topic: seq<string>, closed: set<Sender>)
    ensures LevelPart(a + b, topic, closed) == LevelPart(a, topic, closed) + LevelPart(b, topic, closed)
    ensures PlusPart(a + b, topic, closed) == PlusPart(a, topic, closed) + PlusPart(b, topic, closed)
  {
    if topic != [] {
      UnderAppend(a, b, topic[0]);
      UnderAppend(a, b, "+");
      TargetsAppend(Under(a, topic[0]), Under(b, topic[0]), topic[1..], closed);
      TargetsAppend(Under(a, "+"), Under(b, "+"), topic[1..], closed);
    }
    hide Targets, Under;
  }

  lemma Regroup<T>(h: multiset<T>, h': multiset<T>, e: multiset<T>, e': multiset<T>,
                   l: multiset<T>, l': multiset<T>, p: multiset<T>, p': multiset<T>)
    ensures (h + h') + (e + e') + ((l + l') + (p + p')) == (h + e + (l + p)) + (h' + e' + (l' + p'))
  {
  }

  lemma PartsAppend(a: seq<Reg>, b: seq<Reg>, topic: seq<string>, closed: set<Sender>)
    ensures Parts(a + b, topic, closed) == Parts(a, topic, closed) + Parts(b, topic, closed)
  {
    OwnPartsAppend(a, b, topic, closed);
    LowerPartsAppend(a, b, topic, closed);
    hide HashPart, ExactPart, LevelPart, PlusPart;
    Regroup(HashPart(a, closed), HashPart(b, closed), ExactPart(a, topic, closed), ExactPart(b, topic, closed),
            LevelPart(a, topic, closed), LevelPart(b, topic, closed), PlusPart(a, topic, closed),
            PlusPart(b, topic, closed));
  }

  lemma {:induction false} TargetsAreParts(regs: seq<Reg>, topic: seq<string>, closed: set<Sender>)
    requires WellFormed(regs)
    ensures multiset(Targets(regs, topic, closed)) == Parts(regs, topic, closed)
  {
    if regs != [] {
      assert regs[0] in regs && regs == [regs[0]] + regs[1..];
      hide Parts, Target;
      TargetsAreParts(regs[1..], topic, closed);
      PartsOfOne(regs[0], topic, closed);
      PartsAppend([regs[0]], regs[1..], topic, closed);
    }
  }

  /** A dispatch attempts exactly one send per live registration whose filter matches, and no other. */
  lemma {:induction false} SendsAreTargets(t: Node, regs: seq<Reg>, topic: seq<string>, closed: set<Sender>)
    requires Agrees(t, regs) && WellFormed(regs)
    ensures multiset(Sends(t, topic, closed)) == multiset(Targets(regs, topic, closed))
    decreases |topic|
  {
    hide *;
    TargetsAreParts(regs, topic, closed);
    AgreesUnfolds(t, regs);
    if topic == [] {
      SendsHere(t, regs, closed);
    } else {
      UnderWellFormed(regs, topic[0]);
      UnderWellFormed(regs, "+");
      if topic[0] in t.children {
        SendsAreTargets(t.children[topic[0]], Under(regs, topic[0]), topic[1..], closed);
      }
      if t.plus.Some? {
        SendsAreTargets(t.plus.value, Under(regs, "+"), topic[1..], closed);
      }
      SendsBelow(t, regs, topic, closed);
    }
  }

  lemma SendsHere(t: Node, regs: seq<Reg>, closed: set<Sender>)
    requires AgreesHere(t, regs)
    ensures multiset(Sends(t, [], closed)) == Parts(regs, [], closed)
  {
    hide Under, SendersFor, Open;
  }

  lemma SendsBelow(t: Node, regs: seq<Reg>, topic: seq<string>, closed: set<Sender>)
    requires AgreesHere(t, regs) && topic != []
    requires topic[0] in t.children ==>
               multiset(Sends(t.children[topic[0]], topic[1..], closed))
               == multiset(Targets(Under(regs, topic[0]), topic[1..], closed))
    requires t.plus.Some? ==>
               multiset(Sends(t.plus.value, topic[1..], closed))
               == multiset(Targets(Under(regs, "+"), topic[1..], closed))
    ensures multiset(Sends(t, topic, closed)) == Parts(regs, topic, closed)
  {
    TargetsOfNothing(topic[1..], closed);
    var level := if topic[0] in t.children then Sends(t.children[topic[0]], topic[1..], closed) else [];
    var plus := if t.plus.Some? then Sends(t.plus.value, topic[1..], closed) else [];
    assert Sends(t, topic, closed) == Open(t.hash, closed) + (level + plus);
    hide Under, SendersFor, Targets, Open, Sends;
    assert multiset(level) == LevelPart(regs, topic, closed);
    assert multiset(plus) == PlusPart(regs, topic, closed);
  }

  lemma TargetsOfNothing(topic: seq<string>, closed: set<Sender>)
    ensures Targets([], topic, closed) == []
  {
  }

  // ---- Cleaning up closed senders ----

  lemma {:induction false} NothingCleared(regs: seq<Reg>, topic: seq<string>)
    ensures Cleared(regs, topic, {}) == regs
  {
    hide Matches;
    if regs != [] {
      NothingCleared(regs[1..], topic);
    }
  }

  lemma {:induction false} ClearedAppend(a: seq<Reg>, b: seq<Reg>, topic: seq<string>, closed: set<Sender>)
    ensures Cleared(a + b, topic, closed) == Cleared(a, topic, closed) + Cleared(b, topic, closed)
  {
    hide Kept;
    if a == [] {
      assert a + b == b;
    } else {
      ClearedAppend(a[1..], b, topic, closed);
      assert (a + b)[1..] == a[1..] + b;
    }
  }

  lemma ClearedOfOne(r: Reg, topic: seq<string>, closed: set<Sender>)
    ensures Cleared([r], topic, closed) == Kept(r, topic, closed) && Cleared([], topic, closed) == []
  {
    assert Cleared([r], topic, closed) == Kept(r, topic, closed) + [];
  }

  predicate OnTheWay(level: string, topic: seq<string>) {
    topic != [] && (level == "+" || level == topic[0])
  }

  lemma UnderKept(r: Reg, topic: seq<string>, closed: set<Sender>, level: string)
    requires HashIsLast(r.filter) && level != "#"
    ensures Under(Kept(r, topic, closed), level)
         == if OnTheWay(level, topic) then Cleared(Below(r, level), topic[1..], closed) else Below(r, level)
  {
    MatchesStep(r.filter, topic);
    hide Matches;
    SinglesAre(r);
    var tail := if topic == [] then [] else topic[1..];
    ClearedOfOne(if r.filter == [] then r else Reg(r.filter[1..], r.sender), tail, closed);
    hide Cleared;
    assert Under([], level) == [];
  }

  lemma {:induction false} UnderCleared(regs: seq<Reg>, topic: seq<string>, closed: set<Sender>, level: string)
    requires WellFormed(regs) && level != "#"
    ensures Under(Cleared(regs, topic, closed), level)
         == if OnTheWay(level, topic) then Cleared(Under(regs, level), topic[1..], closed) else Under(regs, level)
  {
    if regs != [] {
      assert regs[0] in regs;
      UnderCleared(regs[1..], topic, closed, level);
      UnderAppend(Kept(regs[0], topic, closed), Cleared(regs[1..], topic, closed), level);
      UnderKept(regs[0], topic, closed, level);
      if OnTheWay(level, topic) {
        ClearedAppend(Below(regs[0], level), Under(regs[1..], level), topic[1..], closed);
      }
      hide Kept, Below, OnTheWay, WellFormed;
    }
  }

  lemma SendersKept(r: Reg, topic: seq<string>, closed: set<Sender>)
    ensures SendersFor(Kept(r, topic, closed), ["#"]) == Open(SenderFor(r, ["#"]), closed)
    ensures SendersFor(Kept(r, topic, closed), [])
         == if topic == [] then Open(SenderFor(r, []), closed) else SenderFor(r, [])
  {
    SinglesAre(r);
    TargetsOfOne(r, topic, closed);
    assert SendersFor([], []) == [] && SendersFor([], ["#"]) == [];
    hide Open;
  }

  lemma {:induction false} SendersCleared(regs: seq<Reg>, topic: seq<string>, closed: set<Sender>)
    ensures SendersFor(Cleared(regs, topic, closed), ["#"]) == Open(SendersFor(regs, ["#"]), closed)
    ensures SendersFor(Cleared(regs, topic, closed), [])
         == if topic == [] then Open(SendersFor(regs, []), closed) else SendersFor(regs, [])
  {
    if regs != [] {
      var kept, later := Kept(regs[0], topic, closed), Cleared(regs[1..], topic, closed);
      SendersCleared(regs[1..], topic, closed);
      SendersKept(regs[0], topic, closed);
      SendersAppend(kept, later, ["#"]);
      SendersAppend(kept, later, []);
      OpenAppend(SenderFor(regs[0], ["#"]), SendersFor(regs[1..], ["#"]), closed);
      OpenAppend(SenderFor(regs[0], []), SendersFor(regs[1..], []), closed);
      hide Kept, SenderFor;
    }
  }

  lemma SweptStep(t: Node, regs: seq<Reg>, topic: seq<string>, closed: set<Sender>)
    requires AgreesHere(t, regs)
    ensures topic == [] ==> Swept(t, topic, closed) == t.(hash := Open(t.hash, closed), exact := Open(t.exact, closed))
    ensures topic != [] ==>
              var s := Swept(t, topic, closed);
              && s.hash == Open(t.hash, closed) && s.exact == t.exact && s.children.Keys == t.children.Keys
              && (s.plus.Some? <==> t.plus.Some?)
              && (t.plus.Some? ==> s.plus.value == Swept(t.plus.value, topic[1..], closed))
              && (forall k :: k in t.children ==>
                    s.children[k] == if k == topic[0] then Swept(t.children[k], topic[1..], closed) else t.children[k])
  {
  }

  lemma NothingStaysNothing(regs: seq<Reg>, topic: seq<string>, closed: set<Sender>)
    requires WellFormed(regs)
    ensures forall k :: k != "#" && Under(regs, k) == [] ==> Under(Cleared(regs, topic, closed), k) == []
  {
    hide Under, Cleared, WellFormed;
    forall k | k != "#" && Under(regs, k) == []
      ensures Under(Cleared(regs, topic, closed), k) == []
    {
      UnderCleared(regs, topic, closed, k);
      ClearedOfNothing(if topic == [] then [] else topic[1..], closed);
    }
  }

  lemma SweptHere(t: Node, regs: seq<Reg>, topic: seq<string>, closed: set<Sender>)
    requires AgreesHere(t, regs) && WellFormed(regs)
    ensures AgreesHere(Swept(t, topic, closed), Cleared(regs, topic, closed))
  {
    hide Under, SendersFor, Cleared, Open, Swept, WellFormed;
    NothingStaysNothing(regs, topic, closed);
    SendersCleared(regs, topic, closed);
    SweptStep(t, regs, topic, closed);
  }

  /** A dispatch drops the matching registrations of closed senders and changes nothing else. */
  lemma {:induction false} SweptAgrees(t: Node, regs: seq<Reg>, topic: seq<string>, closed: set<Sender>)
    requires Agrees(t, regs) && WellFormed(regs)
    ensures Agrees(Swept(t, topic, closed), Cleared(regs, topic, closed))
    decreases |topic|
  {
    var s, regs' := Swept(t, topic, closed), Cleared(regs, topic, closed);
    AgreesUnfolds(t, regs);
    SweptHere(t, regs, topic, closed);
    SweptStep(t, regs, topic, closed);
    hide Under, SendersFor, Cleared, Open, Agrees, AgreesHere, Swept, WellFormed;
    if t.plus.Some? {
      UnderCleared(regs, topic, closed, "+");
      if topic != [] {
        UnderWellFormed(regs, "+");
        SweptAgrees(t.plus.value, Under(regs, "+"), topic[1..], closed);
      }
      assert Agrees(s.plus.value, Under(regs', "+"));
    }
    NoHashChild(t, regs);
    forall k | k in s.children ensures Agrees(s.children[k], Under(regs', k)) {
      UnderCleared(regs, topic, closed, k);
      if topic != [] && k == topic[0] {
        UnderWellFormed(regs, k);
        SweptAgrees(t.children[k], Under(regs, k), topic[1..], closed);
      }
    }
    AgreesFolds(s, regs');
  }

  lemma NoHashChild(t: Node, regs: seq<Reg>)
    requires AgreesHere(t, regs)
    ensures "#" !in t.children && "+" !in t.children
  {
  }

  lemma ClearedOfNothing(topic: seq<string>, closed: set<Sender>)
    ensures Cleared([], topic, closed) == []
  {
  }

  // ---- The trie is canonical ----

  /** No node below this one is empty. */
  predicate Tidy(t: Node)
    decreases t
  {
    && (t.plus.Some? ==> !IsEmpty(t.plus.value) && Tidy(t.plus.value))
    && (forall k :: k in t.children ==> !IsEmpty(t.children[k]) && Tidy(t.children[k]))
  }

  lemma {:induction false} InsertedTidy(t: Node, filter: seq<string>, s: Sender)
    requires Tidy(t)
    ensures Tidy(Inserted(t, filter, s)) && !IsEmpty(Inserted(t, filter, s))
    decreases |filter|
  {
    if filter != [] && filter[0] != "#" {
      var c := if filter[0] == "+" then PlusOr(t) else ChildOr(t, filter[0]);
      assert Tidy(EMPTY);
      InsertedTidy(c, filter[1..], s);
      if filter[0] != "+" {
        assert filter[0] in Inserted(t, filter, s).children;
      }
    }
  }

  lemma {:induction false} RemovedTidy(t: Node, filter: seq<string>)
    requires Tidy(t)
    ensures Tidy(Removed(t, filter))
    decreases |filter|
  {
    if filter != [] && filter[0] == "+" && t.plus.Some? {
      RemovedTidy(t.plus.value, filter[1..]);
    } else if filter != [] && filter[0] != "#" && filter[0] in t.children {
      RemovedTidy(t.children[filter[0]], filter[1..]);
    }
  }

  /** In a tidy trie a node that is not empty has a registration below it. */
  lemma {:induction false} TidyMeansRegistered(t: Node, regs: seq<Reg>)
    requires Tidy(t) && !IsEmpty(t) && Agrees(t, regs)
    ensures regs != []
    decreases t
  {
    if t.plus.Some? {
      TidyMeansRegistered(t.plus.value, Under(regs, "+"));
    } else if t.children != map[] {
      var k :| k in t.children;
      TidyMeansRegistered(t.children[k], Under(regs, k));
    }
  }

  /** Two lists register the same senders, in the same order, for every filter. */
  ghost predicate SameLists(a: seq<Reg>, b: seq<Reg>) {
    forall f :: SendersFor(a, f) == SendersFor(b, f)
  }

  lemma SameListsUnder(a: seq<Reg>, b: seq<Reg>, level: string)
    requires SameLists(a, b)
    ensures SameLists(Under(a, level), Under(b, level))
  {
    forall f ensures SendersFor(Under(a, level), f) == SendersFor(Under(b, level), f) {
      UnderSenders(a, level, [level] + f);
      UnderSenders(b, level, [level] + f);
      assert ([level] + f)[1..] == f;
    }
  }

  lemma SameListsBothEmpty(a: seq<Reg>, b: seq<Reg>)
    requires SameLists(a, b) && a != []
    ensures b != []
  {
    assert SendersFor(a, a[0].filter) != [];
  }

  /** A child that one tidy trie has, the other has too. */
  lemma SameChildren(t: Node, a: seq<Reg>, u: Node, b: seq<Reg>, level: string)
    requires Tidy(t) && Agrees(t, a) && Agrees(u, b) && SameLists(a, b) && level != "#"
    ensures level == "+" && t.plus.Some? ==> u.plus.Some?
    ensures level in t.children ==> level in u.children
  {
    AgreesUnfolds(t, a);
    AgreesUnfolds(u, b);
    if level == "+" && t.plus.Some? {
      TidyMeansRegistered(t.plus.value, Under(a, level));
      SameListsUnder(a, b, level);
      SameListsBothEmpty(Under(a, level), Under(b, level));
    }
    if level in t.children {
      TidyMeansRegistered(t.children[level], Under(a, level));
      SameListsUnder(a, b, level);
      SameListsBothEmpty(Under(a, level), Under(b, level));
    }
  }

  /** Tidy tries that hold the same lists are identical, whatever histories built them. */
  lemma {:induction false} Canonical(t: Node, a: seq<Reg>, u: Node, b: seq<Reg>)
    requires Tidy(t) && Tidy(u) && Agrees(t, a) && Agrees(u, b) && SameLists(a, b)
    ensures t == u
    decreases t
  {
    AgreesUnfolds(t, a);
    AgreesUnfolds(u, b);
    assert SameLists(b, a);
    hide Agrees, Under, SendersFor;
    assert t.hash == u.hash && t.exact == u.exact;
    SameChildren(t, a, u, b, "+");
    SameChildren(u, b, t, a, "+");
    if t.plus.Some? {
      SameListsUnder(a, b, "+");
      hide SameLists, AgreesHere;
      Canonical(t.plus.value, Under(a, "+"), u.plus.value, Under(b, "+"));
    }
    CanonicalChildren(t, a, u, b);
  }

  lemma CanonicalChildren(t: Node, a: seq<Reg>, u: Node, b: seq<Reg>)
    requires Tidy(t) && Tidy(u) && Agrees(t, a) && Agrees(u, b) && SameLists(a, b) && SameLists(b, a)
    ensures t.children == u.children
    decreases t, 0
  {
    AgreesUnfolds(t, a);
    AgreesUnfolds(u, b);
    hide Agrees, Under, SendersFor, SameLists;
    forall k ensures k in t.children <==> k in u.children {
      if k != "#" {
        SameChildren(t, a, u, b, k);
        SameChildren(u, b, t, a, k);
      }
    }
    forall k | k in t.children ensures t.children[k] == u.children[k] {
      SameListsUnder(a, b, k);
      Canonical(t.children[k], Under(a, k), u.children[k], Under(b, k));
    }
  }

  /** Inserting under an unused filter and removing it again restores the trie exactly. */
  lemma InsertThenRemove(t: Node, regs: seq<Reg>, filter: seq<string>, s: Sender)
    requires Tidy(t) && Agrees(t, regs) && WellFormed(regs) && HashIsLast(filter) && SendersFor(regs, filter) == []
    ensures Removed(Inserted(t, filter, s), filter) == t
  {
    var added := regs + [Reg(filter, s)];
    InsertAgrees(t, regs, filter, s);
    InsertedTidy(t, filter, s);
    RemoveAgrees(Inserted(t, filter, s), added, filter);
    RemovedTidy(Inserted(t, filter, s), filter);
    WithoutFacts(added, filter);
    AddedFacts(regs, filter, s);
    hide Agrees, Tidy, Without, SendersFor, Inserted, Removed;
    assert SameLists(Without(added, filter), regs);
    Canonical(Removed(Inserted(t, filter, s), filter), Without(added, filter), t, regs);
  }

  /** With every sender open a dispatch leaves the trie as it is. */
  lemma {:induction false} OpenDispatchChangesNothing(t: Node, topic: seq<string>)
    ensures Swept(t, topic, {}) == t
    decreases |topic|
  {
    AllOpen(t.hash);
    AllOpen(t.exact);
    if topic != [] {
      if topic[0] in t.children {
        OpenDispatchChangesNothing(t.children[topic[0]], topic[1..]);
      }
      if t.plus.Some? {
        OpenDispatchChangesNothing(t.plus.value, topic[1..]);
      }
    }
  }

  lemma {:induction false} AllOpen(senders: seq<Sender>)
    ensures Open(senders, {}) == senders
  {
    if senders != [] {
      AllOpen(senders[1..]);
    }
  }

  // ---- When a trie stays tidy ----

  /** The path of nodes a filter leads to: a trailing `#` is held by the node before it. */
  function NodePath(filter: seq<string>): seq<string> {
    if filter != [] && filter[|filter| - 1] == "#" then filter[..|filter| - 1] else filter
  }

  /** Some registration is held at the end of the path or below it. */
  ghost predicate Uses(regs: seq<Reg>, path: seq<string>) {
    exists r :: r in regs && path <= NodePath(r.filter)
  }

  /** Every path of nodes that holds something still holds something. */
  ghost predicate PathsStay(before: seq<Reg>, after: seq<Reg>) {
    forall path :: path != [] && Uses(before, path) ==> Uses(after, path)
  }

  lemma {:induction false} UnderMember(regs: seq<Reg>, level: string, r: Reg)
    ensures r in Under(regs, level) <==> Reg([level] + r.filter, r.sender) in regs
  {
    if regs != [] {
      UnderMember(regs[1..], level, r);
      var first, up := regs[0], Reg([level] + r.filter, r.sender);
      assert r in Below(first, level) <==> first == up by {
        if first == up { assert first.filter[1..] == r.filter; }
        if r in Below(first, level) { assert first.filter == [level] + first.filter[1..]; }
      }
      assert up in regs <==> up == first || up in regs[1..];
    }
  }

  lemma NodePathStep(level: string, filter: seq<string>)
    requires level != "#"
    ensures NodePath([level] + filter) == [level] + NodePath(filter)
  {
    if filter != [] && filter[|filter| - 1] == "#" {
      assert ([level] + filter)[..|filter|] == [level] + filter[..|filter| - 1];
    }
  }

  /** Paths below a level are the paths of what is registered under it. */
  lemma UsesStep(regs: seq<Reg>, level: string, path: seq<string>)
    requires level != "#"
    ensures Uses(regs, [level] + path) <==> Uses(Under(regs, level), path)
  {
    hide *;
    if Uses(regs, [level] + path) {
      var r := User(regs, [level] + path);
      UserIsBelow(r.filter, level, path);
      var below := Reg(r.filter[1..], r.sender);
      UnderMember(regs, level, below);
      UsedBy(Under(regs, level), path, below);
    }
    if Uses(Under(regs, level), path) {
      var r := User(Under(regs, level), path);
      UnderMember(regs, level, r);
      NodePathStep(level, r.filter);
      PrefixStep(level, path, NodePath(r.filter));
      UsedBy(regs, [level] + path, Reg([level] + r.filter, r.sender));
    }
  }

  lemma User(regs: seq<Reg>, path: seq<string>) returns (r: Reg)
    requires Uses(regs, path)
    ensures r in regs && path <= NodePath(r.filter)
  {
    hide NodePath;
    r :| r in regs && path <= NodePath(r.filter);
  }

  lemma UsedBy(regs: seq<Reg>, path: seq<string>, r: Reg)
    requires r in regs && path <= NodePath(r.filter)
    ensures Uses(regs, path)
  {
    hide NodePath;
  }

  lemma UserIsBelow(filter: seq<string>, level: string, path: seq<string>)
    requires level != "#" && [level] + path <= NodePath(filter)
    ensures filter != [] && filter == [level] + filter[1..] && path <= NodePath(filter[1..])
  {
    assert filter[0] == ([level] + path)[0];
    assert filter == [level] + filter[1..];
    NodePathStep(level, filter[1..]);
    hide NodePath;
    PrefixStep(level, path, NodePath(filter[1..]));
  }

  lemma PrefixStep(level: string, path: seq<string>, longer: seq<string>)
    ensures [level] + path <= [level] + longer <==> path <= longer
  {
    var a, b := [level] + path, [level] + longer;
    assert a[1..] == path && b[1..] == longer;
    if a <= b {
      assert b[1..][..|path|] == a[1..];
    }
  }

  lemma UsesNothing(regs: seq<Reg>)
    ensures Uses(regs, []) <==> regs != []
  {
    if regs != [] {
      assert regs[0] in regs && [] <= NodePath(regs[0].filter);
    }
  }

  /** No path leads through `#`. */
  lemma HashIsNoPath(regs: seq<Reg>, path: seq<string>)
    requires WellFormed(regs) && path != [] && path[0] == "#"
    ensures !Uses(regs, path)
  {
    forall r | r in regs ensures !(path <= NodePath(r.filter)) {
      assert HashIsLast(r.filter);
      assert r.filter != [] && r.filter[0] == "#" ==> NodePath(r.filter) == [];
      assert NodePath(r.filter) != [] ==> NodePath(r.filter)[0] == r.filter[0];
    }
  }

  /** One level down, paths stay and so does whatever is registered there. */
  lemma PathsStayUnder(before: seq<Reg>, after: seq<Reg>, level: string)
    requires PathsStay(before, after) && level != "#"
    ensures Under(before, level) != [] ==> Under(after, level) != []
    ensures PathsStay(Under(before, level), Under(after, level))
  {
    hide Under, Uses;
    UsesStep(before, level, []);
    UsesStep(after, level, []);
    UsesNothing(Under(before, level));
    UsesNothing(Under(after, level));
    assert [level] + [] == [level];
    forall path | path != [] && Uses(Under(before, level), path) ensures Uses(Under(after, level), path) {
      UsesStep(before, level, path);
      UsesStep(after, level, path);
      assert Uses(before, [level] + path);
    }
  }

  /** The same nodes, whatever lists they hold. */
  ghost predicate SameShape(t: Node, u: Node)
    decreases t
  {
    && (t.plus.Some? <==> u.plus.Some?) && (t.plus.Some? ==> SameShape(t.plus.value, u.plus.value))
    && t.children.Keys == u.children.Keys && forall k :: k in t.children ==> SameShape(t.children[k], u.children[k])
  }

  lemma {:induction false} ShapeItself(t: Node)
    ensures SameShape(t, t)
    decreases t
  {
    if t.plus.Some? {
      ShapeItself(t.plus.value);
    }
    forall k | k in t.children ensures SameShape(t.children[k], t.children[k]) {
      ShapeItself(t.children[k]);
    }
  }

  lemma {:induction false} SweptShape(t: Node, topic: seq<string>, closed: set<Sender>)
    ensures SameShape(t, Swept(t, topic, closed))
    decreases |topic|
  {
    ShapeItself(t);
    if topic != [] {
      if topic[0] in t.children {
        SweptShape(t.children[topic[0]], topic[1..], closed);
      }
      if t.plus.Some? {
        SweptShape(t.plus.value, topic[1..], closed);
      }
    }
  }

  /** What one child needs to stay tidy and not empty. */
  lemma ChildTidyIff(c: Node, a: seq<Reg>, d: Node, b: seq<Reg>)
    requires Tidy(c) && !IsEmpty(c) && Agrees(c, a) && Agrees(d, b) && WellFormed(b)
    requires Tidy(d) <==> PathsStay(a, b)
    ensures a != []
    ensures Tidy(d) && !IsEmpty(d) <==> PathsStay(a, b) && b != []
  {
    TidyMeansRegistered(c, a);
    if Tidy(d) && !IsEmpty(d) {
      TidyMeansRegistered(d, b);
    }
    if IsEmpty(d) {
      EmptyMeansNothing(d, b);
    }
  }

  /** Keeping its nodes and changing its lists, a tidy trie stays tidy exactly when every path still holds something. */
  lemma {:induction false} TidyIff(t: Node, a: seq<Reg>, u: Node, b: seq<Reg>)
    requires Tidy(t) && Agrees(t, a) && Agrees(u, b) && WellFormed(a) && WellFormed(b) && SameShape(t, u)
    ensures Tidy(u) <==> PathsStay(a, b)
    decreases t
  {
    AgreesUnfolds(t, a);
    AgreesUnfolds(u, b);
    forall k | k in t.children
      ensures Under(a, k) != []
      ensures Tidy(u.children[k]) && !IsEmpty(u.children[k])
         <==> PathsStay(Under(a, k), Under(b, k)) && Under(b, k) != []
    {
      UnderWellFormed(a, k);
      UnderWellFormed(b, k);
      TidyIff(t.children[k], Under(a, k), u.children[k], Under(b, k));
      ChildTidyIff(t.children[k], Under(a, k), u.children[k], Under(b, k));
    }
    if t.plus.Some? {
      UnderWellFormed(a, "+");
      UnderWellFormed(b, "+");
      TidyIff(t.plus.value, Under(a, "+"), u.plus.value, Under(b, "+"));
      ChildTidyIff(t.plus.value, Under(a, "+"), u.plus.value, Under(b, "+"));
    }
    if PathsStay(a, b) {
      PathsKeepTidy(t, a, u, b);
    }
    if Tidy(u) {
      TidyKeepsPaths(t, a, u, b);
    }
  }

  lemma PathsKeepTidy(t: Node, a: seq<Reg>, u: Node, b: seq<Reg>)
    requires AgreesHere(t, a) && SameShape(t, u) && PathsStay(a, b)
    requires forall k :: k in t.children ==> Under(a, k) != []
    requires t.plus.Some? ==> Under(a, "+") != []
    requires forall k :: k in t.children && PathsStay(Under(a, k), Under(b, k)) && Under(b, k) != [] ==>
               Tidy(u.children[k]) && !IsEmpty(u.children[k])
    requires t.plus.Some? && PathsStay(Under(a, "+"), Under(b, "+")) && Under(b, "+") != [] ==>
               Tidy(u.plus.value) && !IsEmpty(u.plus.value)
    ensures Tidy(u)
  {
    hide *;
    ShapeHere(t, u);
    HashIsNoChild(t, a);
    forall k | k in t.children ensures Tidy(u.children[k]) && !IsEmpty(u.children[k]) {
      PathsStayUnder(a, b, k);
    }
    if t.plus.Some? {
      PathsStayUnder(a, b, "+");
    }
    FoldTidy(u);
  }

  lemma ShapeHere(t: Node, u: Node)
    requires SameShape(t, u)
    ensures (t.plus.Some? <==> u.plus.Some?) && t.children.Keys == u.children.Keys
  {
  }

  lemma HashIsNoChild(t: Node, a: seq<Reg>)
    requires AgreesHere(t, a)
    ensures "#" !in t.children
  {
    hide SendersFor, Under;
  }

  lemma FoldTidy(u: Node)
    requires u.plus.Some? ==> Tidy(u.plus.value) && !IsEmpty(u.plus.value)
    requires forall k :: k in u.children ==> Tidy(u.children[k]) && !IsEmpty(u.children[k])
    ensures Tidy(u)
  {
    hide IsEmpty;
  }

  lemma TidyKeepsPaths(t: Node, a: seq<Reg>, u: Node, b: seq<Reg>)
    requires AgreesHere(t, a) && WellFormed(a) && SameShape(t, u) && Tidy(u)
    requires forall k :: k in t.children && Tidy(u.children[k]) && !IsEmpty(u.children[k]) ==>
               PathsStay(Under(a, k), Under(b, k)) && Under(b, k) != []
    requires t.plus.Some? && Tidy(u.plus.value) && !IsEmpty(u.plus.value) ==>
               PathsStay(Under(a, "+"), Under(b, "+")) && Under(b, "+") != []
    ensures PathsStay(a, b)
  {
    hide Under, SendersFor, Uses, WellFormed, PathsStay, Tidy, IsEmpty;
    forall path | path != [] && Uses(a, path) ensures Uses(b, path) {
      var k := path[0];
      if k == "#" {
        HashIsNoPath(a, path);
      } else {
        assert Under(a, k) != [] ==> k in t.children || (k == "+" && t.plus.Some?);
        UnfoldTidy(u);
        PathStays(a, b, path);
      }
    }
    AllStay(a, b);
  }

  lemma UnfoldTidy(u: Node)
    requires Tidy(u)
    ensures u.plus.Some? ==> !IsEmpty(u.plus.value) && Tidy(u.plus.value)
    ensures forall k :: k in u.children ==> !IsEmpty(u.children[k]) && Tidy(u.children[k])
  {
  }

  lemma AllStay(a: seq<Reg>, b: seq<Reg>)
    requires forall path :: path != [] && Uses(a, path) ==> Uses(b, path)
    ensures PathsStay(a, b)
  {
    hide Uses;
  }

  lemma PathStays(a: seq<Reg>, b: seq<Reg>, path: seq<string>)
    requires path != [] && path[0] != "#" && Uses(a, path)
    requires Under(a, path[0]) != [] ==> PathsStay(Under(a, path[0]), Under(b, path[0])) && Under(b, path[0]) != []
    ensures Uses(b, path)
  {
    hide Under, Uses;
    var k, rest := path[0], path[1..];
    assert path == [k] + rest;
    UsesStep(a, k, rest);
    UsesStep(b, k, rest);
    UsesNothing(Under(b, k));
    NoUses(rest);
  }

  lemma NoUses(path: seq<string>)
    ensures !Uses([], path)
  {
  }

  /** A dispatch leaves a tidy trie tidy if and only if every path in use is still in use without the closed senders. */
  lemma SweptTidyIff(t: Node, regs: seq<Reg>, topic: seq<string>, closed: set<Sender>)
    requires Tidy(t) && Agrees(t, regs) && WellFormed(regs) && WellFormed(Cleared(regs, topic, closed))
    ensures Tidy(Swept(t, topic, closed)) <==> PathsStay(regs, Cleared(regs, topic, closed))
  {
    hide Tidy, Agrees, WellFormed, PathsStay, SameShape, Swept, Cleared;
    SweptAgrees(t, regs, topic, closed);
    SweptShape(t, topic, closed);
    TidyIff(t, regs, Swept(t, topic, closed), Cleared(regs, topic, closed));
  }
}
