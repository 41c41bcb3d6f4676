/** contracts/common/DoubleLinkedList.sol: a list threaded through a storage map, with a copy of its head. */
module DoubleLinkedList {
  import opened Types

  type Id = int

  datatype Node = Node(tableId: Id, uniquePtr: Id, next: Id, prev: Id)

  /** What a storage map holds where nothing was written. */
  const ZERO_NODE := Node(0, 0, 0, 0)

  datatype Storage = Storage(nodes: map<Id, Node>, headNode: Node, length: nat) {
    function At(id: Id): Node { if id in nodes then nodes[id] else ZERO_NODE }
  }

  function AddFront(l: Storage, id: Id): Storage {
    var node := Node(id, id, l.headNode.uniquePtr, 0);
    var added := l.(nodes := l.nodes[id := node]);
    var currentHead := added.At(l.headNode.uniquePtr);
    var linked := if currentHead.uniquePtr != 0 then added.nodes[l.headNode.uniquePtr := currentHead.(prev := id)]
                  else added.nodes;
    Storage(linked, node, l.length + 1)
  }

  function RemoveNode(l: Storage, id: Id): Outcome<Storage> {
    var node := l.At(id);
    var l1 := if node.prev != 0 then l.(nodes := l.nodes[node.prev := l.At(node.prev).(next := node.next)]) else l;
    var l2 := if node.next != 0 then l1.(nodes := l1.nodes[node.next := l1.At(node.next).(prev := node.prev)]) else l1;
    var head := if node.prev == 0 then l2.At(node.next) else l2.headNode;
    if l.length == 0 then Revert else Ok(Storage(l2.nodes - {id}, head, l.length - 1))
  }

  function RemoveFront(l: Storage): Outcome<Storage> { RemoveNode(l, l.headNode.uniquePtr) }

  function Walk(l: Storage, id: Id, steps: nat): Id {
    if steps == 0 then id else l.At(Walk(l, id, steps - 1)).next
  }

  function GetAtIndex(l: Storage, index: nat): Outcome<Node> {
    if index >= l.length then Revert else Ok(l.At(Walk(l, l.headNode.uniquePtr, index)))
  }

  // ---------- the list it stands for ----------

  function NodeAt(s: seq<Id>, i: nat): Node
    requires i < |s|
  {
    Node(s[i], s[i], if i + 1 < |s| then s[i + 1] else 0, if i > 0 then s[i - 1] else 0)
  }

  /** The storage threads exactly the list `s`. Only the identity of the head copy matters. */
  ghost predicate Represents(l: Storage, s: seq<Id>) {
    && Distinct(s) && 0 !in s
    && l.length == |s|
    && l.headNode.uniquePtr == (if s == [] then 0 else s[0])
    && (forall id :: id in l.nodes <==> id in s)
    && (forall i :: 0 <= i < |s| ==> l.nodes[s[i]] == NodeAt(s, i))
  }

  function Without(s: seq<Id>, i: nat): seq<Id>
    requires i < |s|
  {
    s[..i] + s[i + 1..]
  }

  lemma AddPrepends(l: Storage, s: seq<Id>, id: Id)
    requires Represents(l, s) && id != 0 && id !in s
    ensures Represents(AddFront(l, id), [id] + s)
  {
    var t, after := [id] + s, AddFront(l, id);
    forall i | 0 <= i < |t| ensures after.nodes[t[i]] == NodeAt(t, i) {
      if i > 0 { assert l.nodes[s[i - 1]] == NodeAt(s, i - 1); }
    }
  }

  lemma {:induction false} WithoutMembers(s: seq<Id>, i: nat)
    requires Distinct(s) && i < |s|
    ensures Distinct(Without(s, i)) && s[i] !in Without(s, i)
    ensures forall id :: id in Without(s, i) <==> id in s && id != s[i]
  {}

  /** The links of the shorter list: the neighbours of the gap now point across it. */
  function Rewired(s: seq<Id>, i: nat, k: nat): Node
    requires i < |s| && k < |s|
  {
    Node(s[k], s[k],
         if k + 1 == i then NodeAt(s, i).next else NodeAt(s, k).next,
         if k == i + 1 then NodeAt(s, i).prev else NodeAt(s, k).prev)
  }

  lemma WithoutIsRewired(s: seq<Id>, i: nat, j: nat)
    requires i < |s| && j < |s| - 1
    ensures var k := if j < i then j else j + 1;
            Without(s, i)[j] == s[k] && NodeAt(Without(s, i), j) == Rewired(s, i, k)
  {}

  lemma RemoveRewiresAt(l: Storage, s: seq<Id>, i: nat, k: nat)
    requires Represents(l, s) && i < |s| && k < |s| && k != i
    ensures RemoveNode(l, s[i]).Ok? && RemoveNode(l, s[i]).value.At(s[k]) == Rewired(s, i, k)
  {
    assert l.nodes[s[i]] == NodeAt(s, i) && l.nodes[s[k]] == NodeAt(s, k);
    if i > 0 { assert l.nodes[s[i - 1]] == NodeAt(s, i - 1); }
    if i + 1 < |s| { assert l.nodes[s[i + 1]] == NodeAt(s, i + 1); }
  }

  lemma RemoveKeepsRest(l: Storage, s: seq<Id>, i: nat)
    requires Represents(l, s) && i < |s|
    ensures var after := RemoveNode(l, s[i]);
            && after.Ok? && after.value.length == |s| - 1
            && (forall id :: id in after.value.nodes <==> id in s && id != s[i])
            && after.value.headNode.uniquePtr == (if i > 0 then s[0] else if |s| > 1 then s[1] else 0)
  {
    assert l.nodes[s[i]] == NodeAt(s, i);
    if i > 0 { assert l.nodes[s[i - 1]] == NodeAt(s, i - 1); }
    if i + 1 < |s| { assert l.nodes[s[i + 1]] == NodeAt(s, i + 1); }
  }

  /** Removal rewires the two neighbours and touches nothing else. */
  lemma RemoveRewires(l: Storage, s: seq<Id>, i: nat)
    requires Represents(l, s) && i < |s|
    ensures RemoveNode(l, s[i]).Ok?
    ensures forall k :: 0 <= k < |s| && k != i ==> RemoveNode(l, s[i]).value.At(s[k]) == Rewired(s, i, k)
  {
    RemoveKeepsRest(l, s, i);
    forall k | 0 <= k < |s| && k != i ensures RemoveNode(l, s[i]).value.At(s[k]) == Rewired(s, i, k) {
      RemoveRewiresAt(l, s, i, k);
    }
  }

  lemma RewiredRepresents(after: Storage, s: seq<Id>, i: nat)
    requires Distinct(s) && 0 !in s && i < |s| && after.length == |s| - 1
    requires forall id :: id in after.nodes <==> id in s && id != s[i]
    requires forall k :: 0 <= k < |s| && k != i ==> after.At(s[k]) == Rewired(s, i, k)
    requires after.headNode.uniquePtr == (if i > 0 then s[0] else if |s| > 1 then s[1] else 0)
    ensures Represents(after, Without(s, i))
  {
    var t := Without(s, i);
    WithoutMembers(s, i);
    forall j | 0 <= j < |t| ensures after.nodes[t[j]] == NodeAt(t, j) {
      WithoutIsRewired(s, i, j);
    }
  }

  lemma RemoveDeletes(l: Storage, s: seq<Id>, i: nat)
    requires Represents(l, s) && i < |s|
    ensures RemoveNode(l, s[i]).Ok? && Represents(RemoveNode(l, s[i]).value, Without(s, i))
  {
    RemoveRewires(l, s, i);
    RemoveKeepsRest(l, s, i);
    RewiredRepresents(RemoveNode(l, s[i]).value, s, i);
  }

  lemma {:induction false} WalkReaches(l: Storage, s: seq<Id>, i: nat)
    requires Represents(l, s) && i < |s|
    ensures Walk(l, l.headNode.uniquePtr, i) == s[i]
  {
    if i > 0 {
      WalkReaches(l, s, i - 1);
      assert l.nodes[s[i - 1]] == NodeAt(s, i - 1);
    }
  }

  lemma IndexReads(l: Storage, s: seq<Id>, index: nat)
    requires Represents(l, s)
    ensures GetAtIndex(l, index) == if index < |s| then Ok(NodeAt(s, index)) else Revert
  {
    if index < |s| { WalkReaches(l, s, index); }
  }

  // ---------- when the list is kept ----------

  lemma MapSize(l: Storage, s: seq<Id>)
    requires Represents(l, s)
    ensures |l.nodes.Keys| == |s|
  {
    DistinctCardinality(s);
    forall id ensures id in l.nodes.Keys <==> id in SetOf(s) {
      assert id in l.nodes <==> id in s;
    }
    assert l.nodes.Keys == SetOf(s);
  }

  /** Adding keeps the storage a list exactly when the id is not zero and not there yet. */
  lemma AddKeepsIff(l: Storage, s: seq<Id>, id: Id)
    requires Represents(l, s)
    ensures (exists t :: Represents(AddFront(l, id), t)) <==> id != 0 && id !in s
  {
    var after := AddFront(l, id);
    if id != 0 && id !in s {
      AddPrepends(l, s, id);
    } else {
      if id in s && id != 0 { assert after.nodes.Keys == l.nodes.Keys; }
      if t :| Represents(after, t) {
        MapSize(l, s);
        MapSize(after, t);
      }
    }
  }

  /** Removing from a non-empty list keeps it a list exactly when the id is there; removing an absent id
      loses the head. From an empty list it reverts. */
  lemma RemoveKeepsIff(l: Storage, s: seq<Id>, id: Id)
    requires Represents(l, s)
    ensures RemoveNode(l, id).Ok? <==> s != []
    ensures s != [] ==> ((exists t :: Represents(RemoveNode(l, id).value, t)) <==> id in s)
  {
    if id in s {
      var i :| 0 <= i < |s| && s[i] == id;
      RemoveDeletes(l, s, i);
    } else if s != [] {
      var after := RemoveNode(l, id).value;
      assert after.nodes == l.nodes;
      if t :| Represents(after, t) {
        MapSize(l, s);
        MapSize(after, t);
      }
    }
  }

  // ---------- runs ----------

  datatype Op = Add(id: Id) | Remove(id: Id) | PopFront

  function Apply(l: Storage, op: Op): Outcome<Storage> {
    match op
    case Add(id) => Ok(AddFront(l, id))
    case Remove(id) => RemoveNode(l, id)
    case PopFront => RemoveFront(l)
  }

  /** The same operation on the sequence; None when it is not one that a list allows. */
  function Meaning(s: seq<Id>, op: Op): Option<seq<Id>> {
    match op
    case Add(id) => if id == 0 || id in s then None else Some([id] + s)
    case Remove(id) => if id in s then Some(Without(s, IndexOf(s, id))) else None
    case PopFront => if s == [] then None else Some(s[1..])
  }

  function IndexOf(s: seq<Id>, id: Id): (i: nat)
    requires id in s
    ensures i < |s| && s[i] == id
  {
    if s[0] == id then 0 else 1 + IndexOf(s[1..], id)
  }

  function RunStorage(l: Storage, ops: seq<Op>): Outcome<Storage> {
    if ops == [] then Ok(l)
    else
      var before :- RunStorage(l, ops[..|ops| - 1]);
      Apply(before, ops[|ops| - 1])
  }

  function RunList(s: seq<Id>, ops: seq<Op>): Option<seq<Id>> {
    if ops == [] then Some(s)
    else match RunList(s, ops[..|ops| - 1])
      case None => None
      case Some(before) => Meaning(before, ops[|ops| - 1])
  }

  lemma StepRefines(l: Storage, s: seq<Id>, op: Op)
    requires Represents(l, s) && Meaning(s, op).Some?
    ensures Apply(l, op).Ok? && Represents(Apply(l, op).value, Meaning(s, op).value)
  {
    match op
    case Add(id) => AddPrepends(l, s, id);
    case Remove(id) => RemoveDeletes(l, s, IndexOf(s, id));
    case PopFront =>
      RemoveDeletes(l, s, 0);
      assert Without(s, 0) == s[1..];
  }

  /** Any run of fresh additions and present removals refines the same run on a sequence. */
  lemma {:induction false} RunRefines(l: Storage, s: seq<Id>, ops: seq<Op>)
    requires Represents(l, s) && RunList(s, ops).Some?
    ensures RunStorage(l, ops).Ok? && Represents(RunStorage(l, ops).value, RunList(s, ops).value)
  {
    if ops != [] {
      var last := |ops| - 1;
      RunRefines(l, s, ops[..last]);
      StepRefines(RunStorage(l, ops[..last]).value, RunList(s, ops[..last]).value, ops[last]);
    }
  }

  // ---------- the contract ----------

  class List {
    var nodes: map<Id, Node>
    var headNode: Node
    var length: nat

    function View(): Storage
      reads this
    {
      Storage(nodes, headNode, length)
    }

    constructor ()
      ensures View() == Storage(map[], ZERO_NODE, 0) && Represents(View(), [])
    {
      nodes, headNode, length := map[], ZERO_NODE, 0;
    }

    method Add(id: Id)
      modifies this
      ensures View() == AddFront(old(View()), id)
    {
      var node := Node(id, id, headNode.uniquePtr, 0);
      nodes := nodes[node.uniquePtr := node];
      var currentHead := View().At(headNode.uniquePtr);
      if currentHead.uniquePtr != 0 {
        nodes := nodes[headNode.uniquePtr := currentHead.(prev := node.uniquePtr)];
      }
      headNode := node;
      length := length + 1;
    }

    method Remove(id: Id) returns (ok: bool)
      modifies this
      ensures match RemoveNode(old(View()), id)
              case Ok(after) => ok && View() == after
              case Revert => !ok && View() == old(View())
    {
      if length == 0 { return false; }
      var node := View().At(id);
      if node.prev != 0 {
        nodes := nodes[node.prev := View().At(node.prev).(next := node.next)];
      }
      if node.next != 0 {
        nodes := nodes[node.next := View().At(node.next).(prev := node.prev)];
      }
      if node.prev == 0 {
        headNode := View().At(node.next);
      }
      nodes := nodes - {id};
      length := length - 1;
      return true;
    }

    method PopFront() returns (ok: bool)
      modifies this
      ensures match RemoveFront(old(View()))
              case Ok(after) => ok && View() == after
              case Revert => !ok && View() == old(View())
    {
      ok := Remove(headNode.uniquePtr);
    }

    method AtIndex(index: nat) returns (r: Outcome<Node>)
      ensures r == GetAtIndex(View(), index)
    {
      if index >= length { return Revert; }
      var current := headNode.uniquePtr;
      for i := 0 to index
        invariant current == Walk(View(), headNode.uniquePtr, i)
      {
        current := View().At(current).next;
      }
      return Ok(View().At(current));
    }
  }
}
