/** Finding the type elements below a type description: a stack of nodes still to visit gives the same
    list as plain recursion in document order. */
module TypeItems {
  import opened Optional

  const MAX_XML_NODES: nat := 1000000

  datatype Namespace = CoreNs | SchemaNs | ConfigNs | OtherNs

  /** A qualified name: its namespace, its local part and how it was written. */
  datatype QName = QName(uri: Namespace, local: string, written: string)

  datatype Kind = TypeElement | TypeSetElement | OtherElement

  /** The qualifiers found among a type description's children. */
  datatype Qualifiers = Qualifiers(
    digits: nat, fraction: nat, nonNegative: bool, stringLength: nat, stringVariable: bool,
    binaryLength: nat, binaryVariable: bool, date: bool, time: bool)

  /** An element. Its content is a qualified name, or is no such name. */
  datatype Node = Node(kind: Kind, ns: Namespace, content: Option<QName>, qualifiers: Qualifiers, children: seq<Node>)

  // ---------- Plain recursion ----------

  function Size(n: Node): nat
    decreases n
  {
    1 + SizeOf(n, |n.children|)
  }

  function SizeOf(n: Node, k: nat): nat
    requires k <= |n.children|
    decreases n, k
  {
    if k == 0 then 0 else SizeOf(n, k - 1) + Size(n.children[k - 1])
  }

  /** The type elements at a node: itself, or those below it in document order. */
  function ItemsAt(n: Node): seq<Node>
    decreases n
  {
    if n.kind != OtherElement then [n] else ItemsOf(n, |n.children|)
  }

  /** The type elements at the first k children. */
  function ItemsOf(n: Node, k: nat): seq<Node>
    requires k <= |n.children|
    decreases n, k
  {
    if k == 0 then [] else ItemsOf(n, k - 1) + ItemsAt(n.children[k - 1])
  }

  /** The root is never an item itself. */
  function Items(root: Node): seq<Node> {
    ItemsOf(root, |root.children|)
  }

  /** How many nodes are looked at: nothing below a type element is. */
  function VisitsAt(n: Node): (v: nat)
    ensures v >= 1
    decreases n
  {
    if n.kind != OtherElement then 1 else 1 + VisitsOf(n, |n.children|)
  }

  function VisitsOf(n: Node, k: nat): nat
    requires k <= |n.children|
    decreases n, k
  {
    if k == 0 then 0 else VisitsOf(n, k - 1) + VisitsAt(n.children[k - 1])
  }

  function Visits(root: Node): nat {
    1 + VisitsOf(root, |root.children|)
  }

  predicate AllCore(items: seq<Node>) {
    forall i :: 0 <= i < |items| ==> items[i].ns == CoreNs
  }

  /** The traversal succeeds within the node limit if every type element is in the core namespace. */
  predicate Traversable(root: Node) {
    Visits(root) <= MAX_XML_NODES && AllCore(Items(root))
  }

  /** The type elements at some nodes, from the first on. */
  function FrontItems(nodes: seq<Node>): seq<Node>
    decreases nodes
  {
    if nodes == [] then []
    else
      (match nodes[0].kind
       case TypeElement => [nodes[0]]
       case TypeSetElement => [nodes[0]]
       case OtherElement => FrontItems(nodes[0].children)) + FrontItems(nodes[1..])
  }

  lemma {:induction false} FrontSnoc(front: seq<Node>, last: Node)
    ensures FrontItems(front + [last]) == FrontItems(front) + FrontItems([last])
    decreases front
  {
    hide FrontItems;
    if front == [] {
      assert front + [last] == [last];
      FrontNone([last]);
    } else {
      var head, rest := front[0], front[1..];
      assert front == [head] + rest && front + [last] == [head] + (rest + [last]);
      FrontCons(head, rest);
      FrontCons(head, rest + [last]);
      FrontSnoc(rest, last);
      Associates(FrontItems([head]), FrontItems(rest), FrontItems([last]));
    }
  }

  lemma {:induction false} FrontNone(nodes: seq<Node>)
    ensures FrontItems([]) == [] && [] + FrontItems(nodes) == FrontItems(nodes)
  {
  }

  lemma {:induction false} FrontCons(head: Node, rest: seq<Node>)
    ensures FrontItems([head] + rest) == FrontItems([head]) + FrontItems(rest)
  {
    var all := [head] + rest;
    assert all[0] == head && all[1..] == rest;
    assert [head][1..] == [] && FrontItems([]) == [];
    var first := if head.kind == OtherElement then FrontItems(head.children) else [head];
    assert FrontItems(all) == first + FrontItems(rest);
    assert FrontItems([head]) == first + [] == first;
  }

  lemma {:induction false} Associates(a: seq<Node>, b: seq<Node>, c: seq<Node>)
    ensures a + b + c == a + (b + c)
  {
  }

  /** The items of a description stand in the order of its text. */
  lemma {:induction false} ItemsInOrder(root: Node, k: nat)
    requires k <= |root.children|
    ensures ItemsOf(root, k) == FrontItems(root.children[..k])
    ensures k == |root.children| ==> Items(root) == FrontItems(root.children)
    decreases root, k
  {
    assert root.children[..|root.children|] == root.children;
    if k > 0 {
      var child := root.children[k - 1];
      ItemsInOrder(root, k - 1);
      assert root.children[..k] == root.children[..k - 1] + [child];
      FrontSnoc(root.children[..k - 1], child);
      assert [child][1..] == [];
      if child.kind == OtherElement { ItemsInOrder(child, |child.children|); }
    }
  }

  // ---------- The stack ----------

  function StackItems(pending: seq<Node>): seq<Node> {
    if pending == [] then [] else ItemsAt(pending[|pending| - 1]) + StackItems(pending[..|pending| - 1])
  }

  function StackVisits(pending: seq<Node>): nat {
    if pending == [] then 0 else VisitsAt(pending[|pending| - 1]) + StackVisits(pending[..|pending| - 1])
  }

  function StackSize(pending: seq<Node>): nat {
    if pending == [] then 0 else Size(pending[|pending| - 1]) + StackSize(pending[..|pending| - 1])
  }

  /** The first k children, the first of them on top. */
  function Reversed(n: Node, k: nat): (r: seq<Node>)
    requires k <= |n.children|
  {
    if k == 0 then [] else [n.children[k - 1]] + Reversed(n, k - 1)
  }

  /** Children pushed in reverse are popped in document order. */
  lemma {:induction false} PushedChildren(pending: seq<Node>, n: Node, k: nat)
    requires k <= |n.children|
    ensures StackItems(pending + Reversed(n, k)) == ItemsOf(n, k) + StackItems(pending)
    ensures StackVisits(pending + Reversed(n, k)) == VisitsOf(n, k) + StackVisits(pending)
    ensures StackSize(pending + Reversed(n, k)) == SizeOf(n, k) + StackSize(pending)
    decreases k
  {
    hide ItemsAt, VisitsAt, Size, StackItems, StackVisits, StackSize;
    if k == 0 {
      assert pending + Reversed(n, k) == pending;
    } else {
      var child := n.children[k - 1];
      assert pending + Reversed(n, k) == (pending + [child]) + Reversed(n, k - 1);
      PushedChildren(pending + [child], n, k - 1);
      assert (pending + [child])[..|pending|] == pending;
      StackTop(pending + [child]);
      assert ItemsOf(n, k - 1) + (ItemsAt(child) + StackItems(pending)) == (ItemsOf(n, k - 1) + ItemsAt(child)) + StackItems(pending);
    }
  }

  /** The element children in reverse order. */
  method PushChildren(pending: seq<Node>, n: Node) returns (r: seq<Node>)
    ensures r == pending + Reversed(n, |n.children|)
  {
    r := pending;
    var k := |n.children|;
    while k > 0
      invariant 0 <= k <= |n.children| && r + Reversed(n, k) == pending + Reversed(n, |n.children|)
    {
      k := k - 1;
      assert (r + [n.children[k]]) + Reversed(n, k) == r + Reversed(n, k + 1);
      r := r + [n.children[k]];
    }
  }

  /** Collects the type elements below a root with a stack. None stands for the exception. */
  method CollectItems(root: Node) returns (r: Option<seq<Node>>)
    ensures r == if Traversable(root) then Some(Items(root)) else None
  {
    hide ItemsAt, VisitsAt, Size, StackItems, StackVisits, StackSize, Reversed;
    var result: seq<Node> := [];
    StackStart(root);
    var visited := 1;
    var pending := PushChildren([], root);
    while pending != []
      invariant result + StackItems(pending) == Items(root)
      invariant visited + StackVisits(pending) == Visits(root) && 1 <= visited <= MAX_XML_NODES
      invariant AllCore(result)
      decreases StackSize(pending)
    {
      var node, rest := pending[|pending| - 1], pending[..|pending| - 1];
      StackTop(pending);
      pending := rest;
      visited := visited + 1;
      if visited > MAX_XML_NODES { return None; }
      if node.kind != OtherElement {
        ElementItself(node);
        if node.ns != CoreNs {
          assert Items(root)[|result|] == node;
          assert !AllCore(Items(root));
          return None;
        }
        assert result + ([node] + StackItems(rest)) == (result + [node]) + StackItems(rest);
        result := result + [node];
      } else {
        PushedChildren(rest, node, |node.children|);
        OtherBelow(node);
        pending := PushChildren(rest, node);
      }
    }
    StackEmpty();
    assert result + [] == result;
    r := Some(result);
  }

  lemma {:induction false} StackEmpty()
    ensures StackItems([]) == [] && StackVisits([]) == 0 && StackSize([]) == 0
  {
  }

  lemma {:induction false} StackTop(pending: seq<Node>)
    requires pending != []
    ensures var node, rest := pending[|pending| - 1], pending[..|pending| - 1];
            && StackItems(pending) == ItemsAt(node) + StackItems(rest)
            && StackVisits(pending) == VisitsAt(node) + StackVisits(rest)
            && StackSize(pending) == Size(node) + StackSize(rest) && Size(node) >= 1
            && (node.kind != OtherElement ==> ItemsAt(node) == [node] && VisitsAt(node) == 1)
            && VisitsAt(node) >= 1
  {
  }

  lemma {:induction false} ElementItself(n: Node)
    requires n.kind != OtherElement
    ensures ItemsAt(n) == [n] && VisitsAt(n) == 1
  {
  }

  lemma {:induction false} OtherBelow(n: Node)
    requires n.kind == OtherElement
    ensures ItemsAt(n) == ItemsOf(n, |n.children|) && VisitsAt(n) == 1 + VisitsOf(n, |n.children|)
    ensures Size(n) == 1 + SizeOf(n, |n.children|)
  {
  }

  lemma {:induction false} StackStart(root: Node)
    ensures StackItems([] + Reversed(root, |root.children|)) == Items(root)
    ensures 1 + StackVisits([] + Reversed(root, |root.children|)) == Visits(root)
  {
    hide ItemsAt, VisitsAt, Size;
    PushedChildren([], root, |root.children|);
    StackEmpty();
  }
}
